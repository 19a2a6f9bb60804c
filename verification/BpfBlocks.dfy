/**
 Blocks of bytecode: where a block sits in a program does not matter, blocks run one after
 the other, and what the map-store block of bpf_common.h does for any list of saves.
 */
module BpfBlocks {
  import opened Options
  import opened Words
  import opened BpfMachine

  // ---- runs that only move forward ----

  ghost predicate Onward(step: State -> Outcome) {
    forall s: State :: var o := step(s); o.Running? ==> s.pc < o.s.pc
  }

  /** Runs until the pc is at or past hi, or the run is over. */
  ghost function RunTo(step: State -> Outcome, hi: nat, o: Outcome): Outcome
    requires Onward(step)
    decreases if o.Running? then hi - o.s.pc else 0, o.Running?
  {
    if !o.Running? || o.s.pc >= hi then o
    else RunTo(step, hi, step(o.s))
  }

  lemma {:induction false} RunToSplits(step: State -> Outcome, mid: nat, hi: nat, o: Outcome)
    requires Onward(step) && mid <= hi
    ensures RunTo(step, hi, o) == RunTo(step, hi, RunTo(step, mid, o))
    decreases if o.Running? then hi - o.s.pc else 0, o.Running?
  {
    if o.Running? && o.s.pc < mid {
      RunToSplits(step, mid, hi, step(o.s));
    }
  }

  /** Such a run is a number of machine steps no greater than the slots it crosses. */
  lemma {:induction false} RunToIsExec(step: State -> Outcome, hi: nat, o: Outcome) returns (n: nat)
    requires Onward(step) && o.Running? && o.s.pc <= hi
    ensures n <= hi - o.s.pc
    ensures RunTo(step, hi, o) == Exec(step, o, n)
    decreases hi - o.s.pc
  {
    n := 0;
    if o.s.pc < hi {
      var next := step(o.s);
      if next.Running? && next.s.pc <= hi {
        n := RunToIsExec(step, hi, next);
      }
      n := n + 1;
    }
  }

  function Shift(o: Outcome, d: nat): Outcome {
    match o
    case Running(s) => Running(s.(pc := s.pc + d))
    case Exited(ret, s) => Exited(ret, s.(pc := s.pc + d))
    case Faulted(why) => Faulted(why)
  }

  /** `there` does d slots further on what `here` does in the first k slots. */
  ghost predicate Mirrors(there: State -> Outcome, here: State -> Outcome, k: nat, d: nat) {
    forall s: State | s.pc < k :: there(s.(pc := s.pc + d)) == Shift(here(s), d)
  }

  ghost predicate StaysWithin(step: State -> Outcome, k: nat) {
    forall s: State | s.pc < k :: var o := step(s); o.Running? ==> o.s.pc <= k
  }

  lemma {:induction false} RunsMirror(there: State -> Outcome, here: State -> Outcome, k: nat, d: nat, o: Outcome)
    requires Onward(there) && Onward(here) && Mirrors(there, here, k, d) && StaysWithin(here, k)
    requires o.Running? ==> o.s.pc <= k
    ensures RunTo(there, k + d, Shift(o, d)) == Shift(RunTo(here, k, o), d)
    ensures var e := RunTo(here, k, o); e.Running? ==> e.s.pc == k
    decreases if o.Running? then k - o.s.pc else 0, o.Running?
  {
    if o.Running? && o.s.pc < k {
      var next := here(o.s);
      assert there(o.s.(pc := o.s.pc + d)) == Shift(next, d);
      RunsMirror(there, here, k, d, next);
    }
  }

  lemma RunsMirrorAt(there: State -> Outcome, here: State -> Outcome, k: nat, s: State)
    requires Onward(there) && Onward(here) && Mirrors(there, here, k, s.pc) && StaysWithin(here, k)
    ensures RunTo(there, s.pc + k, Running(s)) == Shift(RunTo(here, k, Running(s.(pc := 0))), s.pc)
    ensures var e := RunTo(here, k, Running(s.(pc := 0))); e.Running? ==> e.s.pc == k
  {
    RunsMirror(there, here, k, s.pc, Running(s.(pc := 0)));
    assert Shift(Running(s.(pc := 0)), s.pc) == Running(s);
  }

  // ---- blocks of code ----

  ghost predicate Forward(code: seq<Slot>) {
    forall i :: 0 <= i < |code| && code[i].JmpIf? ==> code[i].off >= 0
  }

  /** A stretch of whole instructions whose jumps land on one of them or right behind it. */
  ghost predicate Closed(code: seq<Slot>) {
    && WideFormed(code)
    && (code != [] ==> !IsWide(code[|code| - 1]))
    && (forall i :: 0 <= i < |code| && code[i].JmpIf? ==> LandsInside(code, i, code[i].off))
  }

  ghost predicate LandsInside(code: seq<Slot>, i: nat, off: int) {
    off >= 0 && i + 1 + off <= |code| && (i + 1 + off < |code| ==> !code[i + 1 + off].Tail?)
  }

  /** A jump to the very next instruction or to the end is inside. */
  lemma ShortJumps(eq: bool, dst: Reg, imm: S32)
    ensures Closed([JmpIf(eq, dst, imm, 0), Exit]) && Closed([JmpIf(eq, dst, imm, 1), Exit])
    ensures !Closed([JmpIf(eq, dst, imm, 2), Exit]) && !Closed([JmpIf(eq, dst, imm, -1), Exit])
  {
    var far, back := [JmpIf(eq, dst, imm, 2), Exit], [JmpIf(eq, dst, imm, -1), Exit];
    assert !LandsInside(far, 0, far[0].off) && !LandsInside(back, 0, back[0].off);
  }

  lemma ForwardStep(code: seq<Slot>, s: State)
    requires Forward(code)
    ensures var o := Step(code, s); o.Running? ==> s.pc < o.s.pc
  {
  }

  lemma ForwardIsOnward(code: seq<Slot>)
    requires Forward(code)
    ensures Onward(StepOf(code))
  {
    forall s: State
      ensures var o := StepOf(code)(s); o.Running? ==> s.pc < o.s.pc
    {
      ForwardStep(code, s);
    }
  }

  lemma ClosedStep(code: seq<Slot>, s: State)
    requires Closed(code) && s.pc < |code|
    ensures var o := Step(code, s); o.Running? ==> o.s.pc <= |code|
  {
  }

  ghost predicate Placed(prog: seq<Slot>, at: nat, code: seq<Slot>) {
    at + |code| <= |prog| && prog[at..at + |code|] == code
  }

  /** What a slot does moves with it; only a wide load looks at the slot behind it. */
  lemma EffectMoves(slot: Slot, tail: Option<Slot>, tail': Option<Slot>, s: State, d: nat)
    requires IsWide(slot) ==> tail == tail'
    requires slot.JmpIf? ==> slot.off >= 0
    ensures Effect(slot, tail', s.(pc := s.pc + d)) == Shift(Effect(slot, tail, s), d)
  {
  }

  lemma StepMoves(prog: seq<Slot>, at: nat, code: seq<Slot>, s: State)
    requires Closed(code) && Placed(prog, at, code) && s.pc < |code|
    ensures Step(prog, s.(pc := s.pc + at)) == Shift(Step(code, s), at)
  {
    var here := prog[at..at + |code|];
    assert prog[s.pc + at] == here[s.pc];
    if IsWide(code[s.pc]) {
      assert TailRightly(code, s.pc + 1);
      assert prog[s.pc + 1 + at] == here[s.pc + 1];
    }
    EffectMoves(code[s.pc], SlotAt(code, s.pc + 1), SlotAt(prog, s.pc + at + 1), s, at);
  }

  ghost function Run(code: seq<Slot>, hi: nat, s: State): Outcome
    requires Forward(code)
  {
    ForwardIsOnward(code);
    RunTo(StepOf(code), hi, Running(s))
  }

  /** The outcome of a block on its own: it falls through to |code|, exits or faults. */
  ghost function Meaning(code: seq<Slot>, s: State): Outcome
    requires Closed(code)
  {
    Run(code, |code|, s.(pc := 0))
  }

  lemma StepsMirror(prog: seq<Slot>, at: nat, code: seq<Slot>)
    requires Closed(code) && Placed(prog, at, code)
    ensures Mirrors(StepOf(prog), StepOf(code), |code|, at)
    ensures StaysWithin(StepOf(code), |code|)
  {
    var there, here := StepOf(prog), StepOf(code);
    forall t: State | t.pc < |code|
      ensures there(t.(pc := t.pc + at)) == Shift(here(t), at)
    {
      StepMoves(prog, at, code, t);
    }
    forall t: State | t.pc < |code|
      ensures var o := here(t); o.Running? ==> o.s.pc <= |code|
    {
      ClosedStep(code, t);
    }
  }

  /** A block placed anywhere in any forward program does what it does on its own. */
  lemma Relocation(prog: seq<Slot>, code: seq<Slot>, s: State)
    requires Forward(prog) && Closed(code) && Placed(prog, s.pc, code)
    ensures Run(prog, s.pc + |code|, s) == Shift(Meaning(code, s), s.pc)
    ensures var e := Meaning(code, s); e.Running? ==> e.s.pc == |code|
  {
    ForwardIsOnward(prog);
    ForwardIsOnward(code);
    StepsMirror(prog, s.pc, code);
    var there, here := StepOf(prog), StepOf(code);
    RunsMirrorAt(there, here, |code|, s);
    assert Meaning(code, s) == RunTo(here, |code|, Running(s.(pc := 0)));
    assert Run(prog, s.pc + |code|, s) == RunTo(there, s.pc + |code|, Running(s));
  }

  /** Running in two legs. */
  ghost function Resume(code: seq<Slot>, hi: nat, o: Outcome): Outcome
    requires Forward(code)
  {
    if o.Running? then Run(code, hi, o.s) else o
  }

  lemma RunSplits(code: seq<Slot>, mid: nat, hi: nat, s: State)
    requires Forward(code) && mid <= hi
    ensures Run(code, hi, s) == Resume(code, hi, Run(code, mid, s))
  {
    ForwardIsOnward(code);
    RunToSplits(StepOf(code), mid, hi, Running(s));
  }

  /** One instruction of a run. */
  lemma RunTick(code: seq<Slot>, hi: nat, s: State)
    requires Forward(code) && s.pc < hi
    ensures Run(code, hi, s) == Resume(code, hi, Step(code, s))
  {
    ForwardIsOnward(code);
    var o := Step(code, s);
    assert StepOf(code)(s) == o;
    if !o.Running? {
      assert RunTo(StepOf(code), hi, o) == o;
    }
  }

  /** One arithmetic instruction of a run. */
  lemma RunAlu(code: seq<Slot>, hi: nat, s: State, v: Val)
    requires Forward(code) && s.pc < hi && s.pc < |code|
    requires match code[s.pc]
      case Alu64(op, dst, arg) => dst != FP && Alu64Val(op, s.regs[dst], Fetch(s.regs, arg)) == Some(v)
      case Alu32(op, dst, arg) => dst != FP && Alu32Val(op, s.regs[dst], Fetch(s.regs, arg)) == Some(v)
      case _ => false
    ensures Run(code, hi, s) == Run(code, hi, s.(pc := s.pc + 1, regs := s.regs[code[s.pc].dst := v]))
  {
    RunTick(code, hi, s);
  }

  lemma RunDone(code: seq<Slot>, hi: nat, s: State)
    requires Forward(code) && s.pc >= hi
    ensures Run(code, hi, s) == Running(s)
  {
    ForwardIsOnward(code);
  }

  ghost function Then(o: Outcome, code: seq<Slot>, at: nat): Outcome
    requires Closed(code)
  {
    if o.Running? then Shift(Meaning(code, o.s), at) else o
  }

  lemma ClosedAppend(a: seq<Slot>, b: seq<Slot>)
    requires Closed(a) && Closed(b)
    ensures Closed(a + b)
  {
    var c := a + b;
    forall i | 0 <= i < |c|
      ensures TailRightly(c, i)
    {
      if i >= |a| {
        assert TailRightly(b, i - |a|);
      } else {
        assert TailRightly(a, i);
      }
    }
    forall i | 0 <= i < |c| && c[i].JmpIf?
      ensures LandsInside(c, i, c[i].off)
    {
      if i >= |a| {
        assert LandsInside(b, i - |a|, b[i - |a|].off);
      } else {
        assert LandsInside(a, i, a[i].off);
        assert b != [] ==> TailRightly(b, 0);
      }
    }
  }

  /** A block that leads into an ending without jumps can be loaded. */
  lemma Sealed(a: seq<Slot>, ending: seq<Slot>)
    requires Closed(a) && Closed(ending) && ending != [] && ending[|ending| - 1] == Exit
    requires forall i :: 0 <= i < |ending| ==> !ending[i].JmpIf?
    ensures Loadable(a + ending) && Closed(a + ending)
  {
    ClosedAppend(a, ending);
    var c := a + ending;
    forall i | 0 <= i < |c| && c[i].JmpIf?
      ensures i + 1 + c[i].off < |c| && !c[i + 1 + c[i].off].Tail?
    {
      assert LandsInside(a, i, a[i].off);
      assert LandsInside(c, i, c[i].off);
    }
  }

  /** r0 = 0, exit. */
  function Ending(): seq<Slot> {
    [Alu64(Mov, 0, K(0)), Exit]
  }

  /** Two blocks in a row mean the first and then, if it falls through, the second. */
  lemma Composition(a: seq<Slot>, b: seq<Slot>, s: State)
    requires Closed(a) && Closed(b)
    ensures Closed(a + b)
    ensures Meaning(a + b, s) == Then(Meaning(a, s), b, |a|)
    ensures var e := Meaning(a, s); e.Running? ==> e.s.pc == |a|
  {
    ClosedAppend(a, b);
    var c := a + b;
    var s0 := s.(pc := 0);
    RunSplits(c, |a|, |c|, s0);
    assert c[0..0 + |a|] == a;
    Relocation(c, a, s0);
    var mid := Meaning(a, s);
    assert Shift(mid, 0) == mid;
    if mid.Running? {
      assert c[|a|..|a| + |b|] == b;
      Relocation(c, b, mid.s);
    }
  }

  // ---- whole programs ----

  lemma AtStart(prog: seq<Slot>)
    requires Loadable(prog)
    ensures Forward(prog) && AtInstruction(prog, 0)
  {
    assert TailRightly(prog, 0);
  }

  /** Running by pc to the last slot ends a loadable program's run. */
  lemma {:induction false} LoadableEnds(prog: seq<Slot>, s: State)
    requires Loadable(prog) && AtInstruction(prog, s.pc)
    ensures Forward(prog) && !Run(prog, |prog|, s).Running?
    decreases |prog| - s.pc
  {
    AtStart(prog);
    StepForward(prog, s);
    RunTick(prog, |prog|, s);
    var o := Step(prog, s);
    if o.Running? {
      LoadableEnds(prog, o.s);
    }
  }

  /** A run of a loadable program to its last slot is the machine's whole run. */
  lemma WholeRun(prog: seq<Slot>, s: State)
    requires Loadable(prog) && s.pc == 0
    ensures Forward(prog)
    ensures Exec(StepOf(prog), Running(s), |prog|) == Run(prog, |prog|, s)
  {
    AtStart(prog);
    LoadableEnds(prog, s);
    ForwardIsOnward(prog);
    var n := RunToIsExec(StepOf(prog), |prog|, Running(s));
    ExecSplit(StepOf(prog), Running(s), n, |prog| - n);
  }

  // ---- the map-store block ----

  /** Puts the index in the word below the frame pointer and looks it up. */
  function LookupBlock(index: S32): seq<Slot> {
    [
      LdMap(1), Tail(0),
      Alu64(Mov, 2, X(FP)),
      Alu64(Add, 2, K(-4)),
      St(W, 2, 0, index),
      CallLookup
    ]
  }

  /** map[index] = reg, as BPF_MAP_ARRAY_STX expands. */
  function StoreBlock(index: S32, reg: Reg): seq<Slot> {
    LookupBlock(index) + [
      JmpIf(false, 0, 0, 1),
      Exit,
      Stx(DW, 0, reg, 0)
    ]
  }

  const BLOCK := 9

  function WithKey(stack: seq<Byte>, index: S32): (r: seq<Byte>)
    requires |stack| == STACK_SIZE
    ensures |r| == STACK_SIZE
  {
    Overwrite(stack, STACK_SIZE - 4, Le4(Word(index)))
  }

  /** The key is on the stack and the call is next. */
  function AtCall(s: State, index: S32): State {
    State(5, s.regs[1 := MapRef][2 := StackPtr(-4)], Memory(WithKey(s.mem.stack, index), s.mem.mp))
  }

  lemma KeyStored(mem: Memory, index: S32)
    requires |mem.stack| == STACK_SIZE
    ensures Store(mem, W, StackPtr(-4), 0, Scalar(SignExtend(index)))
         == Some(Memory(WithKey(mem.stack, index), mem.mp))
  {
    LowOfSignExtend(index);
  }

  lemma ReachCall(s: State, index: S32)
    requires s.pc == 0
    ensures Forward(LookupBlock(index))
    ensures Run(LookupBlock(index), 5, s) == Running(AtCall(s, index))
  {
    var code := LookupBlock(index);
    var s2: State := State(2, s.regs[1 := MapRef], s.mem);
    assert Step(code, s) == Running(s2);
    RunTick(code, 5, s);
    var s3: State := State(3, s2.regs[2 := StackPtr(0)], s.mem);
    assert Step(code, s2) == Running(s3);
    RunTick(code, 5, s2);
    var s4: State := State(4, s2.regs[2 := StackPtr(-4)], s.mem);
    assert s3.regs[2 := StackPtr(-4)] == s4.regs;
    assert Step(code, s3) == Running(s4);
    RunTick(code, 5, s3);
    KeyStored(s.mem, index);
    assert Step(code, s4) == Running(AtCall(s, index));
    RunTick(code, 5, s4);
    RunDone(code, 5, AtCall(s, index));
  }

  /** What the lookup of a key returns. */
  function Found(index: S32, mp: seq<Val>): Val {
    if Word(index) < |mp| then MapVal(Word(index), 0) else Scalar(0)
  }

  /** The lookup finds the key that has just been put on the stack. */
  lemma CallFinds(s: State, index: S32)
    ensures var c := AtCall(s, index);
      && Lookup(c.regs, c.mem) == Some(Found(index, s.mem.mp))
      && AfterCall(c.regs, Found(index, s.mem.mp)) == AfterCall(s.regs, Found(index, s.mem.mp))
  {
    var c := AtCall(s, index);
    Le4RoundTrip(Word(index));
    assert c.mem.stack[508..512] == Le4(Word(index));
  }

  function AfterFound(s: State, index: S32): State {
    State(6, AfterCall(s.regs, Found(index, s.mem.mp)), Memory(WithKey(s.mem.stack, index), s.mem.mp))
  }

  lemma LookupMeaning(s: State, index: S32)
    ensures Closed(LookupBlock(index))
    ensures Meaning(LookupBlock(index), s) == Running(AfterFound(s, index))
  {
    var code, s0 := LookupBlock(index), s.(pc := 0);
    ReachCall(s0, index);
    RunSplits(code, 5, 6, s0);
    CallFinds(s, index);
    assert Step(code, AtCall(s, index)) == Running(AfterFound(s, index));
    RunTick(code, 6, AtCall(s, index));
    RunDone(code, 6, AfterFound(s, index));
  }

  /** A lookup inside a longer forward program. */
  lemma LookupAt(prog: seq<Slot>, hi: nat, s: State, index: S32)
    requires Forward(prog) && Placed(prog, s.pc, LookupBlock(index)) && s.pc + 6 <= hi
    ensures Run(prog, hi, s) == Run(prog, hi, AfterFound(s, index).(pc := s.pc + 6))
  {
    LookupMeaning(s, index);
    Relocation(prog, LookupBlock(index), s);
    RunSplits(prog, s.pc + 6, hi, s);
  }

  lemma StoreBlockClosed(index: S32, reg: Reg)
    ensures Closed(StoreBlock(index, reg))
  {
  }

  /** The whole effect of one block, for any register and any index. */
  ghost function Saved(s: State, index: S32, reg: Reg): Outcome {
    var found := AfterFound(s, index);
    if Word(index) >= |s.mem.mp| then
      Exited(0, found.(pc := 7))
    else if found.regs[reg].Undef? then
      Faulted(BadUse)
    else
      Running(State(BLOCK, found.regs, found.mem.(mp := s.mem.mp[Word(index) := found.regs[reg]])))
  }

  lemma AfterTheCall(s: State, index: S32, reg: Reg)
    ensures Closed(StoreBlock(index, reg))
    ensures Run(StoreBlock(index, reg), BLOCK, AfterFound(s, index)) == Saved(s, index, reg)
  {
    var code := StoreBlock(index, reg);
    StoreBlockClosed(index, reg);
    var s6 := AfterFound(s, index);
    RunTick(code, BLOCK, s6);
    if Word(index) < |s.mem.mp| {
      var s8 := s6.(pc := 8);
      assert Step(code, s6) == Running(s8);
      RunTick(code, BLOCK, s8);
      assert Step(code, s8) == Saved(s, index, reg);
      if !s6.regs[reg].Undef? {
        RunDone(code, BLOCK, Saved(s, index, reg).s);
      }
    } else {
      var s7 := s6.(pc := 7);
      assert Step(code, s6) == Running(s7);
      RunTick(code, BLOCK, s7);
    }
  }

  lemma StoreBlockMeaning(s: State, index: S32, reg: Reg)
    ensures Closed(StoreBlock(index, reg))
    ensures Meaning(StoreBlock(index, reg), s) == Saved(s, index, reg)
  {
    var code := StoreBlock(index, reg);
    StoreBlockClosed(index, reg);
    var s0 := s.(pc := 0);
    assert code[0..0 + 6] == LookupBlock(index);
    LookupAt(code, BLOCK, s0, index);
    AfterTheCall(s, index, reg);
  }

  ghost function OutcomeOf(index: S32, reg: Reg, s: State): Outcome {
    StoreBlockClosed(index, reg);
    Meaning(StoreBlock(index, reg), s)
  }

  /** The outcome falls through with what reg held in s at the entry of that index. */
  ghost predicate StoresEntryValue(o: Outcome, s: State, index: S32, reg: Reg) {
    o.Running? && Word(index) < |o.s.mem.mp| && o.s.mem.mp[Word(index)] == s.regs[reg]
  }

  /**
   The block stores the value its register had on entry, in every state and for every index
   in range, exactly when the register is one that a helper call preserves.
   */
  lemma SavesEntryValueIff(reg: Reg)
    ensures reg >= 6 <==>
      forall s: State, index: S32 | Word(index) < |s.mem.mp| && !s.regs[reg].Undef? ::
        StoresEntryValue(OutcomeOf(index, reg, s), s, index, reg)
  {
    forall s: State, index: S32
      ensures OutcomeOf(index, reg, s) == Saved(s, index, reg)
    {
      StoreBlockMeaning(s, index, reg);
    }
    if reg < 6 {
      var regs := seq(10, _ => Scalar(1)) + [StackPtr(0)];
      var s: State := State(0, regs, Memory(seq(STACK_SIZE, _ => 0), [Scalar(0)]));
      assert Word(0) < |s.mem.mp| && !s.regs[reg].Undef?;
      assert !StoresEntryValue(OutcomeOf(0, reg, s), s, 0, reg);
    }
  }

  // ---- lists of saves ----

  datatype Save = Save(index: S32, reg: Reg)

  function Blocks(list: seq<Save>): seq<Slot> {
    if list == [] then []
    else
      var n := |list| - 1;
      Blocks(list[..n]) + StoreBlock(list[n].index, list[n].reg)
  }

  lemma {:induction false} BlocksShape(list: seq<Save>)
    ensures Closed(Blocks(list)) && |Blocks(list)| == BLOCK * |list|
    ensures list != [] ==> Blocks(list)[0] == LdMap(1)
  {
    if list != [] {
      var n := |list| - 1;
      BlocksShape(list[..n]);
      StoreBlockClosed(list[n].index, list[n].reg);
      ClosedAppend(Blocks(list[..n]), StoreBlock(list[n].index, list[n].reg));
    }
  }

  /** How many saves run before the first one whose index is outside the map. */
  function InRange(list: seq<Save>, size: nat): (r: nat)
    ensures r <= |list|
    ensures forall i :: 0 <= i < r ==> Word(list[i].index) < size
    ensures r < |list| ==> Word(list[r].index) >= size
  {
    if list == [] then 0
    else
      var n := |list| - 1;
      var r := InRange(list[..n], size);
      if r == n && Word(list[n].index) < size then n + 1 else r
  }

  ghost predicate IsLastWriter(list: seq<Save>, j: nat, i: nat)
    requires i < |list|
  {
    Word(list[i].index) == j && forall k :: i < k < |list| ==> Word(list[k].index) != j
  }

  /** The position of the last save to entry j. */
  function LastSave(list: seq<Save>, j: nat): (r: Option<nat>)
    ensures r.None? ==> forall i :: 0 <= i < |list| ==> Word(list[i].index) != j
    ensures r.Some? ==> r.value < |list| && IsLastWriter(list, j, r.value)
  {
    if list == [] then None
    else
      var n := |list| - 1;
      if Word(list[n].index) == j then Some(n) else LastSave(list[..n], j)
  }

  ghost predicate Preserved(list: seq<Save>, s: State) {
    forall i :: 0 <= i < |list| ==> 6 <= list[i].reg && !s.regs[list[i].reg].Undef?
  }

  /** Each entry holds its last saved register's entry value, or what it held before. */
  ghost predicate MapAfter(list: seq<Save>, before: State, after: State) {
    && |after.mem.mp| == |before.mem.mp|
    && forall j :: 0 <= j < |before.mem.mp| ==>
         after.mem.mp[j] == match LastSave(list, j) case Some(i) => before.regs[list[i].reg] case None => before.mem.mp[j]
  }

  ghost predicate Untouched(before: State, after: State) {
    after.regs[6..] == before.regs[6..] && after.mem.stack[..STACK_SIZE - 4] == before.mem.stack[..STACK_SIZE - 4]
  }

  /**
   Any list of saves of call-preserved registers: if every index is in the map the blocks
   fall through, otherwise the first bad index ends the program with r0 = 0; either way the
   map holds exactly the saves that ran, r6-r10 are kept, and the stack changes only in the
   key word.
   */
  lemma {:induction false} BlocksMeaning(list: seq<Save>, s: State)
    requires Preserved(list, s)
    ensures Closed(Blocks(list))
    ensures var r := InRange(list, |s.mem.mp|); var o := Meaning(Blocks(list), s);
      && (if r == |list| then o.Running? && o.s.pc == BLOCK * |list| else o.Exited? && o.ret == 0)
      && MapAfter(list[..r], s, o.s)
      && Untouched(s, o.s)
  {
    hide StoreBlock, Saved, Closed, Meaning, MapAfter, Untouched;
    BlocksShape(list);
    if list == [] {
      NoBlocks(s);
    } else {
      var n := |list| - 1;
      var init, index, reg := list[..n], list[n].index, list[n].reg;
      BlocksShape(init);
      BlocksMeaning(init, s);
      StoreBlockClosed(index, reg);
      Composition(Blocks(init), StoreBlock(index, reg), s);
      var mid := Meaning(Blocks(init), s);
      var r := InRange(init, |s.mem.mp|);
      assert init[..r] == list[..r];
      if mid.Running? {
        assert init[..r] == init;
        StoreBlockMeaning(mid.s, index, reg);
        Kept(s, mid.s, reg);
        OneMoreSave(list, s, mid.s);
      }
    }
  }

  lemma NoBlocks(s: State)
    ensures Closed([]) && Meaning([], s) == Running(s.(pc := 0))
    ensures MapAfter([], s, s.(pc := 0)) && Untouched(s, s.(pc := 0))
  {
    RunDone([], 0, s.(pc := 0));
  }

  lemma Kept(s: State, t: State, reg: Reg)
    requires Untouched(s, t) && reg >= 6
    ensures t.regs[reg] == s.regs[reg]
  {
    assert t.regs[reg] == t.regs[6..][reg - 6] == s.regs[6..][reg - 6] == s.regs[reg];
  }

  lemma OneMoreSave(list: seq<Save>, s: State, mid: State)
    requires list != []
    requires var init := list[..|list| - 1]; MapAfter(init, s, mid) && InRange(init, |s.mem.mp|) == |init|
    requires var reg := list[|list| - 1].reg; reg >= 6 && mid.regs[reg] == s.regs[reg] && !s.regs[reg].Undef?
    requires Untouched(s, mid)
    ensures var last := list[|list| - 1]; var o := Shift(Saved(mid, last.index, last.reg), BLOCK * (|list| - 1));
      && (if Word(last.index) < |s.mem.mp| then o.Running? && o.s.pc == BLOCK * |list| else o.Exited? && o.ret == 0)
      && MapAfter(list[..InRange(list, |s.mem.mp|)], s, o.s)
      && Untouched(s, o.s)
  {
    var n := |list| - 1;
    var last := list[n];
    var o := Saved(mid, last.index, last.reg);
    assert list[..n + 1] == list;
    assert o.s.regs[6..] == mid.regs[6..];
    assert forall i :: 0 <= i < STACK_SIZE - 4 ==> o.s.mem.stack[i] == mid.mem.stack[i];
    assert o.s.mem.stack[..STACK_SIZE - 4] == mid.mem.stack[..STACK_SIZE - 4];
    if Word(last.index) < |s.mem.mp| {
      assert o.s.mem.mp == mid.mem.mp[Word(last.index) := s.regs[last.reg]];
    }
  }

  /** The same, for blocks standing anywhere in a forward program. */
  lemma BlocksAnywhere(prog: seq<Slot>, list: seq<Save>, s: State)
    requires Forward(prog) && Preserved(list, s)
    requires Placed(prog, s.pc, Blocks(list))
    ensures var r := InRange(list, |s.mem.mp|);
      var o := Run(prog, s.pc + |Blocks(list)|, s);
      && (if r == |list| then o.Running? && o.s.pc == s.pc + BLOCK * |list| else o.Exited? && o.ret == 0)
      && MapAfter(list[..r], s, o.s)
      && Untouched(s, o.s)
  {
    BlocksMeaning(list, s);
    Relocation(prog, Blocks(list), s);
  }
}
