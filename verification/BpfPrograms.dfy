/**
 The programs of bpf_prog01.c to bpf_prog05.c: where each run ends and what the array map
 then holds, from every initial state, and the run functions that check it.
 */
module BpfPrograms {
  import opened Options
  import opened Words
  import opened BpfMachine
  import opened BpfBlocks
  import opened BpfAlu

  const A64INT: U64 := 0x1000_0000_0000_0000

  /** One machine step of a run whose outcome is a known state. */
  lemma Tick(prog: seq<Slot>, s: State, next: State)
    requires Forward(prog) && s.pc < |prog| && Step(prog, s) == Running(next)
    ensures Run(prog, |prog|, s) == Run(prog, |prog|, next)
  {
    RunTick(prog, |prog|, s);
  }

  lemma Stop(prog: seq<Slot>, s: State, o: Outcome)
    requires Forward(prog) && s.pc < |prog| && Step(prog, s) == o && !o.Running?
    ensures Run(prog, |prog|, s) == o
  {
    RunTick(prog, |prog|, s);
  }

  /** The common ending: r0 = 0 and exit. */
  lemma EndsWithZero(prog: seq<Slot>, s: State)
    requires Forward(prog) && s.pc + 2 <= |prog|
    requires prog[s.pc] == Alu64(Mov, 0, K(0)) && prog[s.pc + 1] == Exit
    ensures var o := Run(prog, |prog|, s); o.Exited? && o.ret == 0 && o.s.mem == s.mem
  {
    var t := s.(pc := s.pc + 1, regs := s.regs[0 := Scalar(0)]);
    Tick(prog, s, t);
    Stop(prog, t, Exited(0, t));
  }

  ghost predicate ExitsWith(o: Outcome, mp: seq<Val>) {
    o.Exited? && o.ret == 0 && o.s.mem.mp == mp
  }

  // ---- bpf_prog02.c ----

  function Prog02(): seq<Slot> {
    [
      Alu64(Mov, 6, K(1)),
      LdMap(1), Tail(0),
      Alu64(Mov, 2, X(FP)),
      Alu64(Add, 2, K(-4)),
      St(W, 2, 0, 0),
      CallLookup,
      JmpIf(true, 0, 0, 17),
      Alu64(Mov, 3, X(0)),
      LdImm64(4, 0), Tail(0x1000_0000),
      Alu64(Add, 4, X(6)),
      Stx(DW, 3, 4, 0),
      LdMap(1), Tail(0),
      Alu64(Mov, 2, X(FP)),
      Alu64(Add, 2, K(-4)),
      St(W, 2, 0, 1),
      CallLookup,
      JmpIf(true, 0, 0, 5),
      Alu64(Mov, 3, X(0)),
      LdImm64(4, 0), Tail(0x1000_0000),
      Alu64(Sub, 4, X(6)),
      Stx(DW, 3, 4, 0),
      Alu64(Mov, 0, K(0)),
      Exit
    ]
  }

  lemma Prog02Forward()
    ensures Forward(Prog02()) && |Prog02()| == 27
  {
  }

  lemma Prog02Wides()
    ensures WideFormed(Prog02())
  {
  }

  /** Both exits of a failed lookup land on slot 25, which clears r0. */
  lemma Prog02Jumps()
    ensures forall i :: 0 <= i < 27 && Prog02()[i].JmpIf? ==> (i == 7 || i == 19) && i + 1 + Prog02()[i].off == 25
    ensures Prog02()[25] == Alu64(Mov, 0, K(0)) && Prog02()[26] == Exit
  {
  }

  lemma Prog02Loadable()
    ensures Loadable(Prog02())
  {
    Prog02Wides();
    Prog02Jumps();
  }

  lemma Prog02Lookups()
    ensures Placed(Prog02(), 1, LookupBlock(0)) && Placed(Prog02(), 13, LookupBlock(1))
  {
    var prog := Prog02();
    assert |prog| == 27;
    assert prog[5] == LookupBlock(0)[4];
    assert prog[1..7] == [prog[1], prog[2], prog[3], prog[4], prog[5], prog[6]] == LookupBlock(0);
    assert prog[13..19] == [prog[13], prog[14], prog[15], prog[16], prog[17], prog[18]] == LookupBlock(1);
  }

  function Prog02Map(mp: seq<Val>): seq<Val> {
    var first := if |mp| > 0 then mp[0 := Scalar(A64INT + 1)] else mp;
    if |mp| > 1 then first[1 := Scalar(A64INT - 1)] else first
  }

  /** From the slot after a lookup (8 or 20) to the slot after the store. */
  lemma Prog02Store(s: State, idx: nat, op: AluOp, n: U64) returns (t: State)
    requires (s.pc == 8 && op == Add && n == A64INT + 1) || (s.pc == 20 && op == Sub && n == A64INT - 1)
    requires s.regs[0] == MapVal(idx, 0) && s.regs[6] == Scalar(1) && idx < |s.mem.mp|
    ensures Forward(Prog02())
    ensures t.pc == s.pc + 5 && t.mem == s.mem.(mp := s.mem.mp[idx := Scalar(n)]) && t.regs[6] == Scalar(1)
    ensures Run(Prog02(), 27, s) == Run(Prog02(), 27, t)
  {
    Prog02Forward();
    var s1 := s.(pc := s.pc + 1, regs := s.regs[3 := MapVal(idx, 0)]);
    Tick(Prog02(), s, s1);
    var s2 := s1.(pc := s.pc + 3, regs := s1.regs[4 := Scalar(A64INT)]);
    Tick(Prog02(), s1, s2);
    t := Prog02Write(s2, idx, op, n);
  }

  lemma Prog02Write(s: State, idx: nat, op: AluOp, n: U64) returns (t: State)
    requires (s.pc == 11 && op == Add && n == A64INT + 1) || (s.pc == 23 && op == Sub && n == A64INT - 1)
    requires s.regs[3] == MapVal(idx, 0) && s.regs[4] == Scalar(A64INT) && s.regs[6] == Scalar(1)
    requires idx < |s.mem.mp|
    ensures Forward(Prog02())
    ensures t.pc == s.pc + 2 && t.mem == s.mem.(mp := s.mem.mp[idx := Scalar(n)]) && t.regs[6] == Scalar(1)
    ensures Run(Prog02(), 27, s) == Run(Prog02(), 27, t)
  {
    Prog02Forward();
    var s1 := s.(pc := s.pc + 1, regs := s.regs[4 := Scalar(n)]);
    Tick(Prog02(), s, s1);
    t := s1.(pc := s.pc + 2, mem := s.mem.(mp := s.mem.mp[idx := Scalar(n)]));
    Tick(Prog02(), s1, t);
  }

  lemma Prog02Second(s: State)
    requires s.pc == 13 && s.regs[6] == Scalar(1)
    ensures Forward(Prog02())
    ensures ExitsWith(Run(Prog02(), 27, s),
      if |s.mem.mp| > 1 then s.mem.mp[1 := Scalar(A64INT - 1)] else s.mem.mp)
  {
    Prog02Forward();
    Prog02Lookups();
    LookupAt(Prog02(), 27, s, 1);
    var t := AfterFound(s, 1).(pc := 19);
    if |s.mem.mp| > 1 {
      Tick(Prog02(), t, t.(pc := 20));
      var u := Prog02Store(t.(pc := 20), 1, Sub, A64INT - 1);
      EndsWithZero(Prog02(), u);
    } else {
      Tick(Prog02(), t, t.(pc := 25));
      EndsWithZero(Prog02(), t.(pc := 25));
    }
  }

  /** From any registers, stack and map: r0 = 0 and the entries that exist are written. */
  lemma Prog02Ends(s: State)
    requires s.pc == 0
    ensures Forward(Prog02())
    ensures ExitsWith(Run(Prog02(), |Prog02()|, s), Prog02Map(s.mem.mp))
  {
    Prog02Forward();
    Prog02Lookups();
    var s1 := s.(pc := 1, regs := s.regs[6 := Scalar(1)]);
    Tick(Prog02(), s, s1);
    LookupAt(Prog02(), 27, s1, 0);
    var t := AfterFound(s1, 0).(pc := 7);
    if |s.mem.mp| > 0 {
      Tick(Prog02(), t, t.(pc := 8));
      var u := Prog02Store(t.(pc := 8), 0, Add, A64INT + 1);
      Prog02Second(u);
    } else {
      Tick(Prog02(), t, t.(pc := 25));
      EndsWithZero(Prog02(), t.(pc := 25));
    }
  }

  // ---- bpf_prog05.c ----

  const BIT32: U64 := 0x1_0000_0000

  /** r6 = 1 << 32, r7 = -1, w7 op= w6. */
  function Setup(op: AluOp): seq<Slot> {
    [LdImm64(6, 0), Tail(1), Alu64(Mov, 7, K(-1)), Alu32(op, 7, X(6))]
  }

  /** What w7 = -1 becomes when w6 is zero. */
  function ByZero(op: AluOp): U64
    requires op == Div || op == Mod
  {
    if op == Div then 0 else 0xffff_ffff
  }

  lemma SetupMeaning(op: AluOp, s: State)
    requires op == Div || op == Mod
    ensures Closed(Setup(op))
    ensures Meaning(Setup(op), s) ==
      Running(State(4, s.regs[6 := Scalar(BIT32)][7 := Scalar(ByZero(op))], s.mem))
  {
    var code := Setup(op);
    var s0 := s.(pc := 0);
    var s2: State := State(2, s.regs[6 := Scalar(BIT32)], s.mem);
    assert Step(code, s0) == Running(s2);
    RunTick(code, 4, s0);
    var s3: State := State(3, s2.regs[7 := Scalar(0xffff_ffff_ffff_ffff)], s.mem);
    assert Step(code, s2) == Running(s3);
    RunTick(code, 4, s2);
    var s4: State := State(4, s2.regs[7 := Scalar(ByZero(op))], s.mem);
    assert s3.regs[7 := Scalar(ByZero(op))] == s4.regs;
    assert Low32(BIT32) == 0 && Low32(0xffff_ffff_ffff_ffff) == 0xffff_ffff;
    assert Step(code, s3) == Running(s4);
    RunTick(code, 4, s3);
    RunDone(code, 4, s4);
  }

  function Saves(i: nat): seq<Save>
    requires i <= 2
  {
    [Save(i, 6), Save(i + 1, 7)]
  }

  /** Set up, then save r6 to entry i and r7 to entry i + 1. */
  function Half(op: AluOp, i: nat): seq<Slot>
    requires i <= 2
  {
    Setup(op) + Blocks(Saves(i))
  }

  function HalfMap(mp: seq<Val>, i: nat, r: U64): (m: seq<Val>)
    ensures |m| == |mp|
  {
    seq(|mp|, j requires 0 <= j < |mp| =>
      if j == i then Scalar(BIT32) else if j == i + 1 then Scalar(r) else mp[j])
  }

  lemma HalfMeaning(op: AluOp, i: nat, s: State)
    requires (op == Div || op == Mod) && i <= 2
    ensures Closed(Half(op, i))
    ensures var o := Meaning(Half(op, i), s);
      && (if |s.mem.mp| > i + 1 then o.Running? else o.Exited? && o.ret == 0)
      && o.s.mem.mp == HalfMap(s.mem.mp, i, ByZero(op))
  {
    hide Setup, Closed, StoreBlock, Meaning, Blocks;
    var list := Saves(i);
    SetupMeaning(op, s);
    var t := Meaning(Setup(op), s).s;
    BlocksMeaning(list, t);
    Composition(Setup(op), Blocks(list), s);
    var r := InRange(list, |s.mem.mp|);
    assert r == if |s.mem.mp| > i + 1 then 2 else if |s.mem.mp| > i then 1 else 0;
    var u := Meaning(Blocks(list), t).s;
    forall j | 0 <= j < |s.mem.mp|
      ensures u.mem.mp[j] == HalfMap(s.mem.mp, i, ByZero(op))[j]
    {
      var ran := list[..r];
      assert j == i ==> IsLastWriter(ran, j, 0);
      assert j == i + 1 ==> IsLastWriter(ran, j, 1);
    }
  }

  function Prog05(): seq<Slot> {
    Half(Div, 0) + Half(Mod, 2) + Ending()
  }

  /** The entries that exist among 0..3 get 2^32, 0, 2^32 and 2^32 - 1; r0 is 0 in any case. */
  lemma Prog05Ends(s: State)
    requires s.pc == 0
    ensures Loadable(Prog05()) && Forward(Prog05())
    ensures ExitsWith(Run(Prog05(), |Prog05()|, s),
      HalfMap(HalfMap(s.mem.mp, 0, 0), 2, 0xffff_ffff))
  {
    var a, b := Half(Div, 0), Half(Mod, 2);
    HalfMeaning(Div, 0, s);
    var t := Meaning(a, s).s;
    HalfMeaning(Mod, 2, t);
    Composition(a, b, s);
    Sealed(a + b, Ending());
    Composition(a + b, Ending(), s);
    EndingMeaning(Meaning(a + b, s).s);
    assert |t.mem.mp| <= 1 ==> HalfMap(t.mem.mp, 2, 0xffff_ffff) == t.mem.mp;
    assert s.(pc := 0) == s;
  }

  lemma EndingMeaning(s: State)
    ensures Closed(Ending())
    ensures ExitsWith(Meaning(Ending(), s), s.mem.mp)
  {
    EndsWithZero(Ending(), s.(pc := 0));
  }

  // ---- bpf_prog04.c ----

  /** r8 = 2; r8 <<= 31; w8 >>= 31; w8 -= 2. */
  function Mangle(): seq<Slot> {
    [Alu64(Mov, 8, K(2)), Alu64(Lsh, 8, K(31)), Alu32(Rsh, 8, K(31)), Alu32(Sub, 8, K(2))]
  }

  lemma MangleHalfway(s: State)
    requires s.pc == 0
    ensures Forward(Mangle())
    ensures Run(Mangle(), 4, s) == Run(Mangle(), 4, State(2, s.regs[8 := Scalar(BIT32)], s.mem))
  {
    var code := Mangle();
    ShiftConstants();
    var s1: State := State(1, s.regs[8 := Scalar(2)], s.mem);
    RunAlu(code, 4, s, Scalar(2));
    assert s1.regs[8 := Scalar(BIT32)] == s.regs[8 := Scalar(BIT32)];
    RunAlu(code, 4, s1, Scalar(BIT32));
  }

  /** The 32-bit shift drops the bit that the 64-bit shift moved into the high half. */
  lemma MangleShiftBack(s: State)
    requires s.pc == 2 && s.regs[8] == Scalar(BIT32)
    ensures Forward(Mangle())
    ensures Run(Mangle(), 4, s) == Run(Mangle(), 4, State(3, s.regs[8 := Scalar(0)], s.mem))
  {
    ShiftConstants();
    RunAlu(Mangle(), 4, s, Scalar(0));
  }

  lemma MangleMeaning(s: State)
    ensures Closed(Mangle())
    ensures Meaning(Mangle(), s) == Running(State(4, s.regs[8 := Scalar(0xffff_fffe)], s.mem))
  {
    var code := Mangle();
    MangleHalfway(s.(pc := 0));
    var s2: State := State(2, s.regs[8 := Scalar(BIT32)], s.mem);
    MangleShiftBack(s2);
    var s3: State := State(3, s2.regs[8 := Scalar(0)], s.mem);
    RunAlu(code, 4, s3, Scalar(0xffff_fffe));
    var s4: State := State(4, s.regs[8 := Scalar(0xffff_fffe)], s.mem);
    assert s3.regs[8 := Scalar(0xffff_fffe)] == s4.regs;
    RunDone(code, 4, s4);
  }

  /** Add r8 to the looked-up address and store there. */
  function StoreFarAway(): seq<Slot> {
    LookupBlock(0) + [JmpIf(false, 0, 0, 1), Exit, Alu64(Add, 0, X(8)), Stx(DW, 0, 8, 0)]
  }

  /** The store happens exactly when r8 is zero and the map has an entry. */
  lemma StoreFarAwayMeaning(s: State, n: U64)
    requires s.regs[8] == Scalar(n)
    ensures Closed(StoreFarAway())
    ensures var o := Meaning(StoreFarAway(), s);
      if |s.mem.mp| == 0 then o.Exited? && o.ret == 0 && o.s.mem.mp == s.mem.mp
      else if n == 0 then o.Running? && o.s.pc == 10 && o.s.mem.mp == s.mem.mp[0 := Scalar(0)]
      else o == Faulted(BadUse)
  {
    var code := StoreFarAway();
    assert code[0..0 + 6] == LookupBlock(0);
    LookupAt(code, 10, s.(pc := 0), 0);
    FarAfterLookup(AfterFound(s, 0), n);
  }

  lemma FarAfterLookup(s: State, n: U64)
    requires s.pc == 6 && s.regs[0] == Found(0, s.mem.mp) && s.regs[8] == Scalar(n)
    ensures Forward(StoreFarAway())
    ensures var o := Run(StoreFarAway(), 10, s);
      if |s.mem.mp| == 0 then o == Exited(0, s.(pc := 7))
      else if n == 0 then o.Running? && o.s.pc == 10 && o.s.mem.mp == s.mem.mp[0 := Scalar(0)]
      else o == Faulted(BadUse)
  {
    var code := StoreFarAway();
    RunTick(code, 10, s);
    if |s.mem.mp| == 0 {
      assert Step(code, s) == Running(s.(pc := 7));
      RunTick(code, 10, s.(pc := 7));
    } else {
      assert Step(code, s) == Running(s.(pc := 8));
      MoveAndStore(s.(pc := 8), n);
    }
  }

  lemma MoveAndStore(s: State, n: U64)
    requires s.pc == 8 && s.regs[0] == MapVal(0, 0) && s.regs[8] == Scalar(n) && |s.mem.mp| > 0
    ensures Forward(StoreFarAway())
    ensures var o := Run(StoreFarAway(), 10, s);
      if n == 0 then o.Running? && o.s.pc == 10 && o.s.mem.mp == s.mem.mp[0 := Scalar(0)]
      else o == Faulted(BadUse)
  {
    var code := StoreFarAway();
    var v := s.(pc := 9, regs := s.regs[0 := MapVal(0, Signed(n))]);
    RunAlu(code, 10, s, MapVal(0, Signed(n)));
    RunTick(code, 10, v);
    if n == 0 {
      var w := v.(pc := 10, mem := v.mem.(mp := s.mem.mp[0 := Scalar(0)]));
      assert Step(code, v) == Running(w);
      RunDone(code, 10, w);
    } else {
      assert Step(code, v) == Faulted(BadUse);
    }
  }

  function Prog04(): seq<Slot> {
    Mangle() + StoreFarAway() + Ending()
  }

  /** r8 is 2^32 - 2, so the machine refuses the store unless there was nothing to look up. */
  lemma Prog04Ends(s: State)
    requires s.pc == 0
    ensures Loadable(Prog04()) && Forward(Prog04())
    ensures var o := Run(Prog04(), |Prog04()|, s);
      if |s.mem.mp| == 0 then ExitsWith(o, s.mem.mp) else o == Faulted(BadUse)
  {
    MangleMeaning(s);
    var t := Meaning(Mangle(), s).s;
    StoreFarAwayMeaning(t, 0xffff_fffe);
    Composition(Mangle(), StoreFarAway(), s);
    Sealed(Mangle() + StoreFarAway(), Ending());
    Composition(Mangle() + StoreFarAway(), Ending(), s);
    assert s.(pc := 0) == s;
  }

  // ---- bpf_prog03.c ----

  /** w1 = -1; r1 += 1; r1 >>= 26. */
  function WideOne(): seq<Slot> {
    [Alu32(Mov, 1, K(-1)), Alu64(Add, 1, K(1)), Alu64(Rsh, 1, K(26))]
  }

  /** The 32-bit move leaves the high half clear, so the sum is 2^32 and the shift gives 64. */
  lemma WideOneMeaning(s: State)
    ensures Closed(WideOne())
    ensures Meaning(WideOne(), s) == Running(State(3, s.regs[1 := Scalar(64)], s.mem))
  {
    var code := WideOne();
    ShiftConstants();
    LowOfSignExtend(-1);
    var s1: State := State(1, s.regs[1 := Scalar(0xffff_ffff)], s.mem);
    RunAlu(code, 3, s.(pc := 0), Scalar(0xffff_ffff));
    var s2: State := State(2, s.regs[1 := Scalar(BIT32)], s.mem);
    assert s1.regs[1 := Scalar(BIT32)] == s2.regs;
    RunAlu(code, 3, s1, Scalar(BIT32));
    var s3: State := State(3, s.regs[1 := Scalar(64)], s.mem);
    assert s2.regs[1 := Scalar(64)] == s3.regs;
    RunAlu(code, 3, s2, Scalar(64));
    RunDone(code, 3, s3);
  }

  /** Looks entry 0 up through a key address kept in r8; a null address is returned as r0. */
  function LookupThroughR8(): seq<Slot> {
    [
      LdMap(1), Tail(0),
      Alu64(Mov, 8, X(FP)),
      Alu64(Add, 8, K(-4)),
      Alu32(Mov, 2, K(0)),
      Stx(W, 8, 2, 0),
      Alu64(Mov, 2, X(8)),
      CallLookup,
      JmpIf(false, 0, 0, 2),
      Alu64(Mov, 0, X(0)),
      Exit
    ]
  }

  lemma KeyThroughR8(s: State)
    requires s.pc == 0
    ensures Forward(LookupThroughR8())
    ensures Run(LookupThroughR8(), 5, s) ==
      Running(State(5, s.regs[1 := MapRef][8 := StackPtr(-4)][2 := Scalar(0)], s.mem))
  {
    var code := LookupThroughR8();
    var s2: State := State(2, s.regs[1 := MapRef], s.mem);
    assert Step(code, s) == Running(s2);
    RunTick(code, 5, s);
    var s3: State := State(3, s2.regs[8 := StackPtr(0)], s.mem);
    RunAlu(code, 5, s2, StackPtr(0));
    var s4: State := State(4, s2.regs[8 := StackPtr(-4)], s.mem);
    assert s3.regs[8 := StackPtr(-4)] == s4.regs;
    RunAlu(code, 5, s3, StackPtr(-4));
    RunAlu(code, 5, s4, Scalar(0));
    RunDone(code, 5, State(5, s4.regs[2 := Scalar(0)], s.mem));
  }

  lemma CallThroughR8(s: State)
    requires s.pc == 0
    ensures Forward(LookupThroughR8())
    ensures Run(LookupThroughR8(), 8, s) == Running(State(8,
      AfterCall(s.regs[8 := StackPtr(-4)], Found(0, s.mem.mp)), Memory(WithKey(s.mem.stack, 0), s.mem.mp)))
  {
    var code := LookupThroughR8();
    KeyThroughR8(s);
    RunSplits(code, 5, 8, s);
    var s5: State := State(5, s.regs[1 := MapRef][8 := StackPtr(-4)][2 := Scalar(0)], s.mem);
    KeyStored(s.mem, 0);
    var s6: State := State(6, s5.regs, Memory(WithKey(s.mem.stack, 0), s.mem.mp));
    assert Step(code, s5) == Running(s6);
    RunTick(code, 8, s5);
    var s7: State := State(7, s5.regs[2 := StackPtr(-4)], s6.mem);
    assert Step(code, s6) == Running(s7);
    RunTick(code, 8, s6);
    Le4RoundTrip(Word(0));
    assert s6.mem.stack[508..512] == Le4(Word(0));
    var s8: State := State(8, AfterCall(s.regs[8 := StackPtr(-4)], Found(0, s.mem.mp)), s6.mem);
    assert Lookup(s7.regs, s7.mem) == Some(Found(0, s.mem.mp));
    assert AfterCall(s7.regs, Found(0, s.mem.mp)) == s8.regs;
    assert Step(code, s7) == Running(s8);
    RunTick(code, 8, s7);
    RunDone(code, 8, s8);
  }

  lemma LookupThroughR8Meaning(s: State)
    ensures Closed(LookupThroughR8())
    ensures var o := Meaning(LookupThroughR8(), s);
      if |s.mem.mp| == 0 then ExitsWith(o, s.mem.mp)
      else o.Running? && o.s.pc == 11 && o.s.regs[0] == MapVal(0, 0) && o.s.mem.mp == s.mem.mp
  {
    var code := LookupThroughR8();
    CallThroughR8(s.(pc := 0));
    RunSplits(code, 8, 11, s.(pc := 0));
    var t := Run(code, 8, s.(pc := 0)).s;
    if |s.mem.mp| == 0 {
      NullThroughR8(t);
    } else {
      RunTick(code, 11, t);
      assert Step(code, t) == Running(t.(pc := 11));
      RunDone(code, 11, t.(pc := 11));
    }
  }

  lemma NullThroughR8(s: State)
    requires s.pc == 8 && s.regs[0] == Scalar(0)
    ensures Forward(LookupThroughR8())
    ensures Run(LookupThroughR8(), 11, s) == Exited(0, s.(pc := 10))
  {
    var code := LookupThroughR8();
    RunTick(code, 11, s);
    assert Step(code, s) == Running(s.(pc := 9));
    assert s.regs[0 := Scalar(0)] == s.regs;
    RunAlu(code, 11, s.(pc := 9), Scalar(0));
    RunTick(code, 11, s.(pc := 10));
  }

  /** Writes r1 through the looked-up address, then r3 four times at growing distance below it. */
  function WriteBelow(): seq<Slot> {
    [
      Stx(DW, 0, 1, 0),
      Alu64(Mov, 2, X(0)),
      Alu64(Sub, 2, X(1)),
      Alu64(Mov, 3, K(0xdeadbeef - 0x1_0000_0000)),
      Stx(DW, 2, 3, 0),
      Alu64(Sub, 2, X(1)),
      Stx(DW, 2, 3, 0),
      Alu64(Sub, 2, X(1)),
      Stx(DW, 2, 3, 0),
      Alu64(Sub, 2, X(1)),
      Stx(DW, 2, 3, 0)
    ]
  }

  lemma WriteBelowShape()
    ensures Closed(WriteBelow())
  {
  }

  /** r1 reaches the entry, and r2 points 64 bytes below it. */
  lemma WriteBelowStart(s: State)
    requires s.regs[0] == MapVal(0, 0) && s.regs[1] == Scalar(64) && |s.mem.mp| > 0
    ensures Forward(WriteBelow())
    ensures Run(WriteBelow(), 3, s.(pc := 0)) == Running(State(3,
      s.regs[2 := MapVal(0, -64)], s.mem.(mp := s.mem.mp[0 := Scalar(64)])))
  {
    var code := WriteBelow();
    WriteBelowShape();
    var s1: State := State(1, s.regs, s.mem.(mp := s.mem.mp[0 := Scalar(64)]));
    assert Step(code, s.(pc := 0)) == Running(s1);
    RunTick(code, 3, s.(pc := 0));
    var s2: State := State(2, s.regs[2 := MapVal(0, 0)], s1.mem);
    RunAlu(code, 3, s1, MapVal(0, 0));
    var s3: State := State(3, s.regs[2 := MapVal(0, -64)], s1.mem);
    assert s2.regs[2 := MapVal(0, -64)] == s3.regs;
    RunAlu(code, 3, s2, MapVal(0, -64));
    RunDone(code, 3, s3);
  }

  /** The first write below the entry is refused. */
  lemma WriteBelowMeaning(s: State)
    requires s.regs[0] == MapVal(0, 0) && s.regs[1] == Scalar(64) && |s.mem.mp| > 0
    ensures Closed(WriteBelow())
    ensures Meaning(WriteBelow(), s) == Faulted(BadUse)
  {
    var code := WriteBelow();
    WriteBelowShape();
    WriteBelowStart(s);
    RunSplits(code, 3, 11, s.(pc := 0));
    var s3: State := State(3, s.regs[2 := MapVal(0, -64)], s.mem.(mp := s.mem.mp[0 := Scalar(64)]));
    var r3 := Scalar(SignExtend(0xdeadbeef - 0x1_0000_0000));
    RunAlu(code, 11, s3, r3);
    var s4: State := State(4, s3.regs[3 := r3], s3.mem);
    assert Step(code, s4) == Faulted(BadUse);
    RunTick(code, 11, s4);
  }

  /** The four stores are of r3 through r2, and between two stores r2 moves down by r1. */
  lemma WriteBelowLater(s: State, j: nat, idx: nat, o: int)
    requires j < 4 && s.regs[1] == Scalar(64) && s.regs[2] == MapVal(idx, o) && !s.regs[3].Undef?
    ensures s.pc == 5 + 2 * j && j < 3 ==>
      Step(WriteBelow(), s) == Running(s.(pc := s.pc + 1, regs := s.regs[2 := MapVal(idx, o - 64)]))
    ensures s.pc == 4 + 2 * j && o == 0 && idx < |s.mem.mp| ==>
      Step(WriteBelow(), s) == Running(s.(pc := s.pc + 1, mem := s.mem.(mp := s.mem.mp[idx := s.regs[3]])))
    ensures s.pc == 4 + 2 * j && o != 0 ==> Step(WriteBelow(), s) == Faulted(BadUse)
  {
  }

  function Prog03(): seq<Slot> {
    LookupThroughR8() + WideOne() + WriteBelow() + [Alu32(Mov, 0, K(0)), Exit]
  }

  /** With an entry to find, the run is refused at the write 64 bytes below it. */
  lemma Prog03Ends(s: State)
    requires s.pc == 0
    ensures Loadable(Prog03()) && Forward(Prog03())
    ensures var o := Run(Prog03(), |Prog03()|, s);
      if |s.mem.mp| == 0 then ExitsWith(o, s.mem.mp) else o == Faulted(BadUse)
  {
    var a, b, c, d := LookupThroughR8(), WideOne(), WriteBelow(), [Alu32(Mov, 0, K(0)), Exit];
    LookupThroughR8Meaning(s);
    Composition(a, b, s);
    var t := Meaning(a, s).s;
    WideOneMeaning(t);
    var u := Meaning(a + b, s).s;
    if |s.mem.mp| > 0 {
      WriteBelowMeaning(u);
    }
    WriteBelowShape();
    Composition(a + b, c, s);
    Sealed(a + b + c, d);
    Composition(a + b + c, d, s);
    assert s.(pc := 0) == s;
  }

  // ---- bpf_prog01.c ----

  function Prog01(): seq<Slot> {
    [
      LdMap(1), Tail(0),
      Alu64(Mov, 2, X(FP)),
      Alu64(Add, 2, K(-8)),
      St(DW, 2, 0, 0),
      CallLookup,
      JmpIf(true, 0, 0, 3),
      Alu64(Mov, 1, X(0)),
      St(DW, 1, 0, 1),
      Alu64(Mov, 0, K(0)),
      Exit
    ]
  }

  lemma Prog01Loadable()
    ensures Loadable(Prog01()) && Forward(Prog01())
  {
  }

  function KeyBelow8(stack: seq<Byte>): (r: seq<Byte>)
    requires |stack| == STACK_SIZE
    ensures |r| == STACK_SIZE
  {
    Overwrite(stack, STACK_SIZE - 8, Le8(0))
  }

  lemma Prog01Key(s: State)
    requires s.pc == 0
    ensures Forward(Prog01())
    ensures Run(Prog01(), 11, s) == Run(Prog01(), 11, State(4, s.regs[1 := MapRef][2 := StackPtr(-8)], s.mem))
  {
    var prog := Prog01();
    Prog01Loadable();
    var s2: State := State(2, s.regs[1 := MapRef], s.mem);
    Tick(prog, s, s2);
    var s3: State := State(3, s2.regs[2 := StackPtr(0)], s.mem);
    RunAlu(prog, 11, s2, StackPtr(0));
    assert s3.regs[2 := StackPtr(-8)] == s2.regs[2 := StackPtr(-8)];
    RunAlu(prog, 11, s3, StackPtr(-8));
  }

  /** The double-word key of zero is read back as a word: its low half. */
  lemma Prog01Call(s: State)
    requires s.pc == 0
    ensures Forward(Prog01())
    ensures Run(Prog01(), 11, s) == Run(Prog01(), 11,
      State(6, AfterCall(s.regs, Found(0, s.mem.mp)), Memory(KeyBelow8(s.mem.stack), s.mem.mp)))
  {
    var prog := Prog01();
    Prog01Loadable();
    Prog01Key(s);
    var s4: State := State(4, s.regs[1 := MapRef][2 := StackPtr(-8)], s.mem);
    var s5: State := State(5, s4.regs, Memory(KeyBelow8(s.mem.stack), s.mem.mp));
    Tick(prog, s4, s5);
    Prog01Lookup(s5, s.mem.stack);
    var s6: State := State(6, AfterCall(s.regs, Found(0, s.mem.mp)), s5.mem);
    assert AfterCall(s5.regs, Found(0, s.mem.mp)) == s6.regs;
    Tick(prog, s5, s6);
  }

  lemma Prog01Lookup(s: State, stack: seq<Byte>)
    requires |stack| == STACK_SIZE && s.mem.stack == KeyBelow8(stack)
    requires s.regs[1] == MapRef && s.regs[2] == StackPtr(-8)
    ensures Lookup(s.regs, s.mem) == Some(Found(0, s.mem.mp))
  {
    Le4RoundTrip(0);
    assert Le8(0) == Le4(0) + Le4(0);
    assert s.mem.stack[504..508] == Le8(0)[..4] == Le4(0);
  }

  lemma Prog01Ends(s: State)
    requires s.pc == 0
    ensures Loadable(Prog01()) && Forward(Prog01())
    ensures ExitsWith(Run(Prog01(), |Prog01()|, s),
      if |s.mem.mp| > 0 then s.mem.mp[0 := Scalar(1)] else s.mem.mp)
  {
    var prog := Prog01();
    Prog01Loadable();
    Prog01Call(s);
    var t: State := State(6, AfterCall(s.regs, Found(0, s.mem.mp)), Memory(KeyBelow8(s.mem.stack), s.mem.mp));
    if |s.mem.mp| > 0 {
      Tick(prog, t, t.(pc := 7));
      var u := t.(pc := 8, regs := t.regs[1 := MapVal(0, 0)]);
      Tick(prog, t.(pc := 7), u);
      var v := u.(pc := 9, mem := u.mem.(mp := s.mem.mp[0 := Scalar(1)]));
      Tick(prog, u, v);
      EndsWithZero(prog, v);
    } else {
      Tick(prog, t, t.(pc := 10));
      Stop(prog, t.(pc := 10), Exited(0, t.(pc := 10)));
    }
  }

  // ---- the run functions ----

  /** Reads the map back entry by entry, advancing the shared key. */
  class Checker {
    const m: Machine
    var key: nat
    var failures: nat

    constructor (m: Machine)
      ensures this.m == m && key == 0 && failures == 0
    {
      this.m, this.key, this.failures := m, 0, 0;
    }

    method ExpectRegVal(expected: U64)
      requires key < |m.mem.mp|
      modifies this
      ensures key == old(key) + 1
      ensures failures == old(failures) + if m.mem.mp[old(key)] == Scalar(expected) then 0 else 1
    {
      if m.mem.mp[key] != Scalar(expected) {
        failures := failures + 1;
      }
      key := key + 1;
    }
  }

  /** A fresh array map of the given size, a program, and its run to the end. */
  method RunOn(prog: seq<Slot>, entries: nat, regs: seq<Val>, stack: seq<Byte>) returns (m: Machine)
    requires Loadable(prog) && Forward(prog) && Sound(State(0, regs, Memory(stack, [])))
    ensures fresh(m) && m.Valid()
    ensures m.Now() == Run(prog, |prog|, State(0, regs, Memory(stack, seq(entries, _ => Scalar(0)))))
  {
    m := new Machine(prog, regs, Memory(stack, seq(entries, _ => Scalar(0))));
    ghost var s := m.Now().s;
    AtStart(prog);
    m.Run();
    WholeRun(prog, s);
  }

  method Run01(regs: seq<Val>, stack: seq<Byte>) returns (failures: nat)
    requires Sound(State(0, regs, Memory(stack, [])))
    ensures failures == 0
  {
    ghost var s: State := State(0, regs, Memory(stack, seq(1, _ => Scalar(0))));
    Prog01Ends(s);
    var m := RunOn(Prog01(), 1, regs, stack);
    var c := new Checker(m);
    c.ExpectRegVal(1);
    failures := c.failures;
  }

  method Run02(regs: seq<Val>, stack: seq<Byte>) returns (failures: nat)
    requires Sound(State(0, regs, Memory(stack, [])))
    ensures failures == 0
  {
    ghost var s: State := State(0, regs, Memory(stack, seq(2, _ => Scalar(0))));
    Prog02Ends(s);
    Prog02Loadable();
    var m := RunOn(Prog02(), 2, regs, stack);
    var c := new Checker(m);
    c.ExpectRegVal(A64INT + 1);
    c.ExpectRegVal(A64INT - 1);
    failures := c.failures;
  }

  method Run05(regs: seq<Val>, stack: seq<Byte>) returns (failures: nat)
    requires Sound(State(0, regs, Memory(stack, [])))
    ensures failures == 0
  {
    ghost var s: State := State(0, regs, Memory(stack, seq(8, _ => Scalar(0))));
    Prog05Ends(s);
    var m := RunOn(Prog05(), 8, regs, stack);
    var c := new Checker(m);
    c.ExpectRegVal(BIT32);
    c.ExpectRegVal(0);
    c.ExpectRegVal(BIT32);
    c.ExpectRegVal(0xffff_ffff);
    failures := c.failures;
  }
}
