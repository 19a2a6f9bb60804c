/**
 The eBPF machine the test programs run on, following RFC 9669: section 3.2 (wide
 instructions take two slots), section 4.1 (arithmetic), section 4.3 (jumps count slots)
 and section 5.4 (64-bit immediates).  Registers hold tagged values, so that a pointer
 cannot be confused with a number.
 */
module BpfMachine {
  import opened Options
  import opened Words

  type Reg = r: int | 0 <= r < 11

  /** r10 is the frame pointer; a program reads it but never writes it. */
  const FP: Reg := 10
  const STACK_SIZE := 512

  /** Undef is what a helper call leaves in r1-r5. */
  datatype Val =
    | Undef
    | Context
    | Scalar(n: U64)
    | StackPtr(off: int)
    | MapRef
    | MapVal(idx: nat, off: int)

  datatype AluOp = Add | Sub | Div | Mod | Lsh | Rsh | Mov
  datatype Operand = K(imm: S32) | X(src: Reg)
  datatype Size = W | DW

  /** One 64-bit slot of a program.  LdImm64 and LdMap need a Tail in the next slot. */
  datatype Slot =
    | Alu64(op: AluOp, dst: Reg, arg: Operand)
    | Alu32(op: AluOp, dst: Reg, arg: Operand)
    | LdImm64(dst: Reg, lo: U32)
    | LdMap(dst: Reg)
    | Tail(hi: U32)
    | St(size: Size, dst: Reg, off: int, imm: S32)
    | Stx(size: Size, dst: Reg, src: Reg, off: int)
    | JmpIf(eq: bool, dst: Reg, imm: S32, off: int)
    | CallLookup
    | Exit

  /** The program's stack and the entries of its array map. */
  datatype Memory = Memory(stack: seq<Byte>, mp: seq<Val>)

  datatype RawState = State(pc: nat, regs: seq<Val>, mem: Memory)

  ghost predicate Sound(s: RawState) {
    |s.regs| == 11 && s.regs[FP] == StackPtr(0) && |s.mem.stack| == STACK_SIZE
  }

  type State = s: RawState | Sound(s)
    ghost witness State(0, seq(11, _ => StackPtr(0)), Memory(seq(STACK_SIZE, _ => 0), []))

  /** BadFlow: left the program or hit half of a wide instruction; BadUse: a value misused. */
  datatype Fault = BadFlow | BadUse

  datatype Outcome =
    | Running(s: State)
    | Exited(ret: U64, s: State)
    | Faulted(why: Fault)

  // ---- arithmetic, RFC 9669 section 4.1 ----

  function Op64(op: AluOp, a: U64, b: U64): U64 {
    match op
    case Add => (a + b) % 0x1_0000_0000_0000_0000
    case Sub => (a - b) % 0x1_0000_0000_0000_0000
    case Div => if b == 0 then 0 else Quotient(a, b)
    case Mod => if b == 0 then a else a % b
    case Lsh => Shl64(a, b % 64)
    case Rsh => Shr(a, b % 64)
    case Mov => b
  }

  /** 32-bit operations see only the low halves and clear the high half of the result. */
  function Op32(op: AluOp, a64: U64, b64: U64): U64 {
    var a, b := Low32(a64), Low32(b64);
    match op
    case Add => (a + b) % 0x1_0000_0000
    case Sub => (a - b) % 0x1_0000_0000
    case Div => if b == 0 then 0 else Quotient(a, b)
    case Mod => if b == 0 then a else a % b
    case Lsh => Shl32(a, b % 32)
    case Rsh => Shr(a, b % 32)
    case Mov => b
  }

  function Quotient(a: U64, b: nat): (q: U64)
    requires b >= 1
    ensures q <= a
  {
    assert a / b <= a by { QuotientShrinks(a, b); }
    a / b
  }

  lemma QuotientShrinks(a: nat, b: nat)
    requires b >= 1
    ensures 0 <= a / b <= a
  {
    var q := a / b;
    assert a == q + (b - 1) * q + a % b;
    assert (b - 1) * q >= 0;
  }

  /** Moves a pointer; None for values that cannot be moved. */
  function Displace(p: Val, delta: int): Option<Val> {
    match p
    case StackPtr(off) => Some(StackPtr(off + delta))
    case MapVal(idx, off) => Some(MapVal(idx, off + delta))
    case _ => None
  }

  function Alu64Val(op: AluOp, a: Val, b: Val): Option<Val> {
    if op == Mov then
      if b.Undef? then None else Some(b)
    else if a.Scalar? && b.Scalar? then
      Some(Scalar(Op64(op, a.n, b.n)))
    else if op == Add && b.Scalar? then
      Displace(a, Signed(b.n))
    else if op == Add && a.Scalar? then
      Displace(b, Signed(a.n))
    else if op == Sub && b.Scalar? then
      Displace(a, -Signed(b.n))
    else
      None
  }

  function Alu32Val(op: AluOp, a: Val, b: Val): Option<Val> {
    if op == Mov then
      if b.Scalar? then Some(Scalar(Low32(b.n))) else None
    else if a.Scalar? && b.Scalar? then
      Some(Scalar(Op32(op, a.n, b.n)))
    else
      None
  }

  function Fetch(regs: seq<Val>, arg: Operand): Val
    requires |regs| == 11
  {
    match arg
    case K(imm) => Scalar(SignExtend(imm))
    case X(r) => regs[r]
  }

  // ---- memory ----

  predicate OnStack(off: int, len: nat) {
    -STACK_SIZE <= off && off + len <= 0
  }

  function Overwrite(stack: seq<Byte>, at: nat, bytes: seq<Byte>): (r: seq<Byte>)
    requires at + |bytes| <= |stack|
    ensures |r| == |stack|
  {
    stack[..at] + bytes + stack[at + |bytes|..]
  }

  function BytesOf(size: Size, n: U64): seq<Byte> {
    match size
    case W => Le4(Low32(n))
    case DW => Le8(n)
  }

  /** A store of v at base + off; None when the access is not allowed. */
  function Store(mem: Memory, size: Size, base: Val, off: int, v: Val): (r: Option<Memory>)
    requires |mem.stack| == STACK_SIZE
    ensures r.Some? ==> |r.value.stack| == STACK_SIZE && |r.value.mp| == |mem.mp|
  {
    match base
    case StackPtr(o) =>
      if v.Scalar? && OnStack(o + off, |BytesOf(size, v.n)|) then
        Some(mem.(stack := Overwrite(mem.stack, STACK_SIZE + o + off, BytesOf(size, v.n))))
      else
        None
    case MapVal(idx, o) =>
      if size == DW && !v.Undef? && o + off == 0 && idx < |mem.mp| then
        Some(mem.(mp := mem.mp[idx := v]))
      else
        None
    case _ => None
  }

  /** A helper call leaves its result in r0 and nothing usable in r1-r5. */
  function AfterCall(regs: seq<Val>, r0: Val): (r: seq<Val>)
    requires |regs| == 11
    ensures |r| == 11 && r[0] == r0 && r[6..] == regs[6..]
    ensures forall i :: 1 <= i < 6 ==> r[i] == Undef
    ensures forall i :: 6 <= i < 11 ==> r[i] == regs[i]
  {
    [r0, Undef, Undef, Undef, Undef, Undef] + regs[6..]
  }

  /** map_lookup_elem(r1, r2): the entry's address, or null. */
  function Lookup(regs: seq<Val>, mem: Memory): (r: Option<Val>)
    requires |regs| == 11 && |mem.stack| == STACK_SIZE
  {
    if regs[1] == MapRef && regs[2].StackPtr? && OnStack(regs[2].off, 4) then
      var at := STACK_SIZE + regs[2].off;
      var key := FromLe4(mem.stack[at..at + 4]);
      Some(if key < |mem.mp| then MapVal(key, 0) else Scalar(0))
    else
      None
  }

  // ---- one step ----

  function Goto(s: State, pc: int): Outcome {
    if pc < 0 then Faulted(BadFlow) else Running(s.(pc := pc))
  }

  function SetReg(s: State, dst: Reg, v: Option<Val>, width: nat): Outcome {
    if dst == FP || v.None? then
      Faulted(BadUse)
    else
      Running(s.(regs := s.regs[dst := v.value], pc := s.pc + width))
  }

  function SetMem(s: State, next: Option<Memory>): Outcome
    requires next.Some? ==> |next.value.stack| == STACK_SIZE
  {
    if next.None? then Faulted(BadUse) else Running(s.(pc := s.pc + 1, mem := next.value))
  }

  function Return(s: State, r0: Option<Val>): Outcome {
    if r0.None? then Faulted(BadUse) else Running(s.(pc := s.pc + 1, regs := AfterCall(s.regs, r0.value)))
  }

  /** The slot at pc runs; `tail` is the slot after it, if there is one. */
  function Effect(slot: Slot, tail: Option<Slot>, s: State): Outcome {
    match slot
    case Alu64(op, dst, arg) => SetReg(s, dst, Alu64Val(op, s.regs[dst], Fetch(s.regs, arg)), 1)
    case Alu32(op, dst, arg) => SetReg(s, dst, Alu32Val(op, s.regs[dst], Fetch(s.regs, arg)), 1)
    case LdImm64(dst, lo) =>
      if tail.Some? && tail.value.Tail? then
        SetReg(s, dst, Some(Scalar(lo + 0x1_0000_0000 * tail.value.hi)), 2)
      else
        Faulted(BadFlow)
    case LdMap(dst) =>
      if tail.Some? && tail.value.Tail? then
        SetReg(s, dst, if tail.value.hi == 0 then Some(MapRef) else None, 2)
      else
        Faulted(BadFlow)
    case Tail(_) => Faulted(BadFlow)
    case St(size, dst, off, imm) =>
      SetMem(s, Store(s.mem, size, s.regs[dst], off, Scalar(SignExtend(imm))))
    case Stx(size, dst, src, off) =>
      SetMem(s, Store(s.mem, size, s.regs[dst], off, s.regs[src]))
    case JmpIf(eq, dst, imm, off) =>
      if s.regs[dst].Undef? then
        Faulted(BadUse)
      else
        var same := s.regs[dst] == Scalar(SignExtend(imm));
        Goto(s, s.pc + 1 + if same == eq then off else 0)
    case CallLookup => Return(s, Lookup(s.regs, s.mem))
    case Exit =>
      if s.regs[0].Scalar? then Exited(s.regs[0].n, s) else Faulted(BadUse)
  }

  function SlotAt(prog: seq<Slot>, pc: nat): Option<Slot> {
    if pc < |prog| then Some(prog[pc]) else None
  }

  function Step(prog: seq<Slot>, s: State): Outcome {
    if s.pc < |prog| then Effect(prog[s.pc], SlotAt(prog, s.pc + 1), s) else Faulted(BadFlow)
  }

  /**
   A program as a transition function, so that runs can be reasoned about apart from what
   their steps do; mentioning Step(prog, s) is what connects the two.
   */
  ghost function StepOf(prog: seq<Slot>): (f: State -> Outcome)
    ensures forall s: State {:trigger Step(prog, s)} :: f(s) == Step(prog, s)
  {
    assert var g := (s: State) => Step(prog, s); forall s: State {:trigger Step(prog, s)} :: g(s) == Step(prog, s);
    var f: State -> Outcome :| forall s: State {:trigger Step(prog, s)} :: f(s) == Step(prog, s);
    f
  }

  /** Up to n steps; a finished run stays finished. */
  ghost function Exec(step: State -> Outcome, o: Outcome, n: nat): Outcome
    decreases n
  {
    if n == 0 || !o.Running? then o else Exec(step, step(o.s), n - 1)
  }

  lemma {:induction false} ExecSplit(step: State -> Outcome, o: Outcome, m: nat, n: nat)
    ensures Exec(step, o, m + n) == Exec(step, Exec(step, o, m), n)
    decreases m
  {
    if m > 0 && o.Running? {
      ExecSplit(step, step(o.s), m - 1, n);
    }
  }

  // ---- which programs halt ----

  predicate IsWide(slot: Slot) {
    slot.LdImm64? || slot.LdMap?
  }

  /** Every wide load is followed by its tail, and every tail follows a wide load. */
  predicate WideFormed(prog: seq<Slot>) {
    forall i :: 0 <= i < |prog| ==> TailRightly(prog, i)
  }

  predicate TailRightly(prog: seq<Slot>, i: nat)
    requires i < |prog|
  {
    prog[i].Tail? <==> i > 0 && IsWide(prog[i - 1])
  }

  /** Jumps go forward to the first slot of an instruction inside the program. */
  predicate JumpsForward(prog: seq<Slot>) {
    forall i :: 0 <= i < |prog| && prog[i].JmpIf? ==>
      prog[i].off >= 0 && i + 1 + prog[i].off < |prog| && !prog[i + 1 + prog[i].off].Tail?
  }

  predicate Loadable(prog: seq<Slot>) {
    WideFormed(prog) && JumpsForward(prog) && |prog| > 0 && prog[|prog| - 1] == Exit
  }

  predicate AtInstruction(prog: seq<Slot>, pc: nat) {
    pc < |prog| && !prog[pc].Tail?
  }

  /** One step of a loadable program ends the run or moves forward to an instruction. */
  lemma StepForward(prog: seq<Slot>, s: State)
    requires Loadable(prog) && AtInstruction(prog, s.pc)
    ensures var o := Step(prog, s);
      && (o.Running? ==> o.s.pc > s.pc && AtInstruction(prog, o.s.pc))
      && o != Faulted(BadFlow)
  {
    var slot := prog[s.pc];
    assert TailRightly(prog, s.pc);
    if s.pc + 1 < |prog| {
      assert TailRightly(prog, s.pc + 1);
      if s.pc + 2 < |prog| {
        assert TailRightly(prog, s.pc + 2);
      }
    }
    if IsWide(slot) {
      assert s.pc + 1 < |prog|;
      assert TailRightly(prog, s.pc + 1);
    }
  }

  /**
   A loadable program halts after at most one step for every slot still ahead of it, and
   never by leaving the program or landing inside a wide instruction.
   */
  lemma {:induction false} Halts(prog: seq<Slot>, s: State, n: nat)
    requires Loadable(prog) && AtInstruction(prog, s.pc)
    requires n >= |prog| - s.pc
    ensures !Exec(StepOf(prog), Running(s), n).Running?
    ensures Exec(StepOf(prog), Running(s), n) != Faulted(BadFlow)
    decreases n
  {
    StepForward(prog, s);
    var o := Step(prog, s);
    if o.Running? {
      Halts(prog, o.s, n - 1);
    }
  }

  // ---- the machine as an object ----

  datatype Status = Live | Done(ret: U64) | Dead(why: Fault)

  /** A loaded program with its registers, stack and array map. */
  class Machine {
    const prog: seq<Slot>
    var pc: nat
    var regs: seq<Val>
    var mem: Memory
    var status: Status

    ghost predicate Valid()
      reads this
    {
      Sound(State(pc, regs, mem))
    }

    ghost function Now(): Outcome
      requires Valid()
      reads this
    {
      match status
      case Live => Running(State(pc, regs, mem))
      case Done(ret) => Exited(ret, State(pc, regs, mem))
      case Dead(why) => Faulted(why)
    }

    constructor (prog: seq<Slot>, regs: seq<Val>, mem: Memory)
      requires Sound(State(0, regs, mem))
      ensures Valid() && this.prog == prog && status == Live
      ensures Now() == Running(State(0, regs, mem))
    {
      this.prog, this.pc, this.status := prog, 0, Live;
      this.regs, this.mem := regs, mem;
    }

    method Write(dst: Reg, v: Option<Val>, width: nat)
      requires Valid() && status == Live
      modifies this
      ensures Valid() && Now() == SetReg(old(Now()).s, dst, v, width)
    {
      if dst == FP || v.None? {
        status := Dead(BadUse);
      } else {
        regs := regs[dst := v.value];
        pc := pc + width;
      }
    }

    method WriteMemory(size: Size, base: Val, off: int, v: Val)
      requires Valid() && status == Live
      modifies this
      ensures Valid() && Now() == SetMem(old(Now()).s, Store(old(mem), size, base, off, v))
    {
      var next := Store(mem, size, base, off, v);
      if next.None? {
        status := Dead(BadUse);
      } else {
        mem := next.value;
        pc := pc + 1;
      }
    }

    method CallHelper()
      requires Valid() && status == Live
      modifies this
      ensures Valid() && Now() == Return(old(Now()).s, Lookup(old(regs), old(mem)))
    {
      var r0 := Lookup(regs, mem);
      if r0.None? {
        status := Dead(BadUse);
      } else {
        regs := AfterCall(regs, r0.value);
        pc := pc + 1;
      }
    }

    method StepOnce()
      requires Valid() && status == Live
      modifies this
      ensures Valid() && Now() == Step(prog, old(Now()).s)
    {
      if pc >= |prog| {
        status := Dead(BadFlow);
        return;
      }
      ghost var s := Now().s;
      var wide := pc + 1 < |prog| && prog[pc + 1].Tail?;
      match prog[pc]
      case Alu64(op, dst, arg) =>
        Write(dst, Alu64Val(op, regs[dst], Fetch(regs, arg)), 1);
      case Alu32(op, dst, arg) =>
        Write(dst, Alu32Val(op, regs[dst], Fetch(regs, arg)), 1);
      case LdImm64(dst, lo) =>
        if wide {
          Write(dst, Some(Scalar(lo + 0x1_0000_0000 * prog[pc + 1].hi)), 2);
        } else {
          status := Dead(BadFlow);
        }
      case LdMap(dst) =>
        if wide {
          Write(dst, if prog[pc + 1].hi == 0 then Some(MapRef) else None, 2);
        } else {
          status := Dead(BadFlow);
        }
      case Tail(_) =>
        status := Dead(BadFlow);
      case St(size, dst, off, imm) =>
        WriteMemory(size, regs[dst], off, Scalar(SignExtend(imm)));
      case Stx(size, dst, src, off) =>
        WriteMemory(size, regs[dst], off, regs[src]);
      case JmpIf(eq, dst, imm, off) =>
        if regs[dst].Undef? {
          status := Dead(BadUse);
        } else {
          var target: int := pc + 1;
          if (regs[dst] == Scalar(SignExtend(imm))) == eq {
            target := target + off;
          }
          if target < 0 {
            status := Dead(BadFlow);
          } else {
            pc := target;
          }
        }
      case CallLookup =>
        CallHelper();
      case Exit =>
        status := if regs[0].Scalar? then Done(regs[0].n) else Dead(BadUse);
    }

    /** Runs a loadable program to its end, which Halts shows is reached. */
    method Run()
      requires Valid() && status == Live && Loadable(prog) && AtInstruction(prog, pc)
      modifies this
      ensures Valid() && status != Live && status != Dead(BadFlow)
      ensures Now() == Exec(StepOf(prog), old(Now()), |prog|)
    {
      ghost var o := Now();
      ghost var n := 0;
      Halts(prog, o.s, |prog|);
      while status == Live
        invariant Valid() && n <= |prog|
        invariant Now() == Exec(StepOf(prog), o, n)
        invariant status == Live ==> AtInstruction(prog, pc) && n <= pc
        decreases if status == Live then |prog| - pc else 0, status == Live
      {
        ghost var s := Now().s;
        StepForward(prog, s);
        StepOnce();
        ExecSplit(StepOf(prog), o, n, 1);
        n := n + 1;
      }
      ExecSplit(StepOf(prog), o, n, |prog| - n);
    }
  }
}
