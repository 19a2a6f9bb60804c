/**
 The 32-bit operations the programs rely on, over all 64-bit operands.
 */
module BpfAlu {
  import opened Options
  import opened Words
  import opened BpfMachine

  /**
   When the low half of the divisor is zero, a 32-bit division gives zero and a 32-bit
   remainder gives the zero-extended low half, which is the old value exactly when the
   high half was already clear.  The high half of the divisor plays no part.
   */
  lemma ZeroDivisor32(a: U64, b: U64)
    ensures Low32(b) == 0 <==> forall x: U64 :: Op32(Div, x, b) == 0
    ensures Low32(b) == 0 ==> Op32(Div, a, b) == 0
    ensures Low32(b) == 0 ==> Op32(Mod, a, b) == Low32(a)
    ensures Low32(b) == 0 ==> (Op32(Mod, a, b) == a <==> High32(a) == 0)
  {
    assert a == 0x1_0000_0000 * High32(a) + Low32(a);
    if Low32(b) != 0 {
      var x: U64 := Low32(b);
      DivideSelf(Low32(b));
      assert Low32(x) == Low32(b);
      assert Op32(Div, x, b) == 1;
    }
  }

  lemma DivideSelf(n: int)
    requires n > 0
    ensures n / n == 1
  {
  }

  /** The 32-bit shift of the programs is the truncate-then-shift form. */
  lemma Shift32Agrees(x: U64, s: nat)
    requires s < 32
    ensures Op32(Rsh, x, s) == Low32(Op64(Rsh, x, s)) <==> LowBitsZero(High32(x), s)
  {
    TruncateAndShift(x, s);
    assert Low32(s) == s;
  }

  // ---- the operations of section 4.1 by their laws ----

  /** Addition wraps once at most, and subtraction undoes it. */
  lemma AddAndSub(a: U64, b: U64)
    ensures a + b - Op64(Add, a, b) in {0, 0x1_0000_0000_0000_0000}
    ensures Op64(Sub, Op64(Add, a, b), b) == a
    ensures Op64(Mov, a, b) == b
  {
  }

  /** Quotient and remainder make up the dividend; a zero divisor gives zero and the dividend. */
  lemma DivAndMod(a: U64, b: U64)
    ensures Op64(Div, a, b) * b + Op64(Mod, a, b) == a
    ensures if b == 0 then Op64(Div, a, b) == 0 else Op64(Mod, a, b) < b
  {
  }

  /** Shifts use the low six bits of the count, multiply and divide. */
  lemma Shifts(a: U64, b: U64) returns (k: nat)
    ensures a * Pow2(b % 64) == Op64(Lsh, a, b) + k * 0x1_0000_0000_0000_0000
    ensures Op64(Rsh, a, b) * Pow2(b % 64) <= a < (Op64(Rsh, a, b) + 1) * Pow2(b % 64)
  {
    k := Shl64Multiplies(a, b % 64);
    ShrDivides(a, b % 64);
  }

  /** 32-bit operations are those on the low halves, cut to 32 bits. */
  lemma LowHalves(a: U64, b: U64)
    ensures forall op | op in {Add, Sub, Mov} :: Op32(op, a, b) == Low32(Op64(op, a, b))
    ensures forall op | op in {Div, Mod} :: Op32(op, a, b) == Op64(op, Low32(a), Low32(b))
  {
    Halves(a);
    Halves(b);
    LowOfSum(a, b);
    LowOfDifference(a, b);
  }

  lemma LowOfSum(a: U64, b: U64)
    ensures Op32(Add, a, b) == Low32(Op64(Add, a, b))
  {
    var l: int, h: int := Low32(a) + Low32(b), High32(a) + High32(b);
    if l >= 0x1_0000_0000 {
      l, h := l - 0x1_0000_0000, h + 1;
    }
    SplitsInto(a, b, Op64(Add, a, b), a + b, h, l);
  }

  lemma LowOfDifference(a: U64, b: U64)
    ensures Op32(Sub, a, b) == Low32(Op64(Sub, a, b))
  {
    var l: int, h: int := Low32(a) - Low32(b), High32(a) - High32(b);
    if l < 0 {
      l, h := l + 0x1_0000_0000, h - 1;
    }
    SplitsInto(a, b, Op64(Sub, a, b), a - b, h, l);
  }

  /** A wrapped sum or difference with its two halves. */
  lemma SplitsInto(a: U64, b: U64, x: U64, exact: int, h: int, l: U32)
    requires (exact == a + b || exact == a - b) && x == exact % 0x1_0000_0000_0000_0000
    requires exact == 0x1_0000_0000 * h + l
    ensures Low32(x) == l
  {
    var h' := if exact < 0 then h + 0x1_0000_0000 else if exact >= 0x1_0000_0000_0000_0000 then h - 0x1_0000_0000 else h;
    assert x == 0x1_0000_0000 * h' + l;
  }

  /** 32-bit shifts use the low five bits of the count. */
  lemma LowShifts(a: U64, b: U64) returns (k: nat)
    ensures Low32(a) * Pow2(Low32(b) % 32) == Op32(Lsh, a, b) + k * 0x1_0000_0000
    ensures Op32(Rsh, a, b) * Pow2(Low32(b) % 32) <= Low32(a) < (Op32(Rsh, a, b) + 1) * Pow2(Low32(b) % 32)
  {
    k := Shl32Multiplies(Low32(a), Low32(b) % 32);
    ShrDivides(Low32(a), Low32(b) % 32);
  }

  /** Pointers move by signed amounts, from either side, and back; nothing else can be done with them. */
  lemma PointersMove(o: int, idx: nat, i: S32, op: AluOp, v: Val)
    ensures var d := Scalar(SignExtend(i));
      && Alu64Val(Add, StackPtr(o), d) == Some(StackPtr(o + i)) == Alu64Val(Add, d, StackPtr(o))
      && Alu64Val(Add, MapVal(idx, o), d) == Some(MapVal(idx, o + i)) == Alu64Val(Add, d, MapVal(idx, o))
      && Alu64Val(Sub, StackPtr(o + i), d) == Some(StackPtr(o))
      && Alu64Val(Sub, MapVal(idx, o + i), d) == Some(MapVal(idx, o))
      && Alu64Val(Sub, d, StackPtr(o)) == Alu64Val(Sub, d, MapVal(idx, o)) == None
    ensures Alu64Val(Mov, v, StackPtr(o)) == Some(StackPtr(o)) && Alu64Val(Mov, v, MapVal(idx, o)) == Some(MapVal(idx, o))
    ensures op != Mov && !v.Scalar? ==> Alu64Val(op, v, StackPtr(o)) == Alu64Val(op, v, MapVal(idx, o)) == None
    ensures op !in {Add, Sub, Mov} ==> Alu64Val(op, StackPtr(o), v) == Alu64Val(op, MapVal(idx, o), v) == None
    ensures !v.Scalar? ==> Alu32Val(op, v, v) == None
    ensures Alu64Val(op, v, Undef) == None && (op != Mov ==> Alu64Val(op, Undef, v) == None)
  {
    SignExtendKeeps(i, 0);
  }

  // ---- memory ----

  /** The word or double word at a place on the stack. */
  function LoadWord(mem: Memory, o: int): U32
    requires |mem.stack| == STACK_SIZE && OnStack(o, 4)
  {
    FromLe4(mem.stack[STACK_SIZE + o..STACK_SIZE + o + 4])
  }

  /**
   A stack store inside the 512 bytes below the frame pointer is read back, low word first,
   and changes nothing else; outside it is refused, and so is storing a pointer.
   */
  lemma StackStore(mem: Memory, size: Size, o: int, off: int, v: Val)
    requires |mem.stack| == STACK_SIZE
    ensures var bytes := if size.W? then 4 else 8;
      var r := Store(mem, size, StackPtr(o), off, v);
      && (r.Some? <==> v.Scalar? && -512 <= o + off <= -bytes)
      && (r.Some? ==>
            && r.value.mp == mem.mp && LoadWord(r.value, o + off) == Low32(v.n)
            && (size.DW? ==> LoadWord(r.value, o + off + 4) == High32(v.n))
            && forall i :: 0 <= i < STACK_SIZE && !(512 + o + off <= i < 512 + o + off + bytes) ==>
                 r.value.stack[i] == mem.stack[i])
  {
    if v.Scalar? {
      Le4RoundTrip(Low32(v.n));
      Le8RoundTrip(v.n);
      var r := Store(mem, size, StackPtr(o), off, v);
      if r.Some? {
        var at := STACK_SIZE + o + off;
        assert r.value.stack[at..at + |BytesOf(size, v.n)|] == BytesOf(size, v.n);
        if size.DW? {
          assert r.value.stack[at..at + 4] == Le8(v.n)[..4];
          assert r.value.stack[at + 4..at + 8] == Le8(v.n)[4..];
        }
      }
    }
  }

  /** A map store hits exactly its entry, and only as a double word at its beginning. */
  lemma MapStore(mem: Memory, size: Size, idx: nat, o: int, off: int, v: Val)
    requires |mem.stack| == STACK_SIZE
    ensures var r := Store(mem, size, MapVal(idx, o), off, v);
      && (r.Some? <==> size.DW? && !v.Undef? && o == -off && idx < |mem.mp|)
      && (r.Some? ==>
            && r.value.stack == mem.stack && |r.value.mp| == |mem.mp| && r.value.mp[idx] == v
            && forall i :: 0 <= i < |mem.mp| && i != idx ==> r.value.mp[i] == mem.mp[i])
  {
  }

  /** The lookup reads its key from where r2 points and gives the entry's address, or null past the map. */
  lemma LookupReadsKey(regs: seq<Val>, mem: Memory, o: int)
    requires |regs| == 11 && |mem.stack| == STACK_SIZE && regs[1] == MapRef && regs[2] == StackPtr(o)
    ensures if -512 <= o <= -4 then
        Lookup(regs, mem) == Some(if LoadWord(mem, o) < |mem.mp| then MapVal(LoadWord(mem, o), 0) else Scalar(0))
      else Lookup(regs, mem) == None
  {
  }

  // ---- control ----

  /** Any immediate can be returned: exit hands r0 back. */
  lemma ReturnsImmediate(imm: S32, s: State)
    requires s.pc == 0
    ensures var prog := [Alu64(Mov, 0, K(imm)), Exit];
      var o := Exec(StepOf(prog), Running(s), 2);
      o.Exited? && o.ret == SignExtend(imm) && o.s.mem == s.mem
  {
    var prog := [Alu64(Mov, 0, K(imm)), Exit];
    var step := StepOf(prog);
    var t := s.(pc := 1, regs := s.regs[0 := Scalar(SignExtend(imm))]);
    assert Step(prog, s) == Running(t);
    assert Step(prog, t) == Exited(SignExtend(imm), t);
    assert Exec(step, Running(s), 2) == Exec(step, Running(t), 1) == Exec(step, Exited(SignExtend(imm), t), 0);
  }

  /** A branch compares with the widened immediate and counts from the next slot; not taken, it falls through. */
  lemma Branches(prog: seq<Slot>, s: State, eq: bool, dst: Reg, imm: S32, off: int)
    requires s.pc < |prog| && prog[s.pc] == JmpIf(eq, dst, imm, off) && !s.regs[dst].Undef?
    ensures var equal := s.regs[dst].Scalar? && Signed(s.regs[dst].n) == imm;
      var taken := if eq then equal else !equal;
      Step(prog, s) ==
        if !taken then Running(s.(pc := s.pc + 1))
        else if off + s.pc >= -1 then Running(s.(pc := s.pc + 1 + off)) else Faulted(BadFlow)
  {
    SignExtendKeeps(imm, 0);
  }

  /** A map load wants a zero second half. */
  lemma MapLoads(prog: seq<Slot>, s: State, dst: Reg, hi: U32)
    requires s.pc + 1 < |prog| && prog[s.pc] == LdMap(dst) && prog[s.pc + 1] == Tail(hi) && dst < 10
    ensures Step(prog, s) == if hi == 0 then Running(s.(pc := s.pc + 2, regs := s.regs[dst := MapRef])) else Faulted(BadUse)
  {
  }

  /** What stops a program: leaving it, half an instruction, the frame pointer, values not fit for use. */
  lemma Stops(prog: seq<Slot>, s: State)
    ensures s.pc >= |prog| ==> Step(prog, s) == Faulted(BadFlow)
    ensures s.pc < |prog| ==> match prog[s.pc]
      case Tail(_) => Step(prog, s) == Faulted(BadFlow)
      case Alu64(_, dst, _) => dst == 10 ==> Step(prog, s) == Faulted(BadUse)
      case Alu32(_, dst, _) => dst == 10 ==> Step(prog, s) == Faulted(BadUse)
      case LdImm64(dst, _) => s.pc + 1 < |prog| && prog[s.pc + 1].Tail? && dst == 10 ==> Step(prog, s) == Faulted(BadUse)
      case Stx(_, dst, _, _) => s.regs[dst].Scalar? || s.regs[dst].Undef? ==> Step(prog, s) == Faulted(BadUse)
      case St(_, dst, _, _) => s.regs[dst].Scalar? || s.regs[dst].Undef? ==> Step(prog, s) == Faulted(BadUse)
      case JmpIf(_, dst, _, off) =>
        && (s.regs[dst].Undef? ==> Step(prog, s) == Faulted(BadUse))
        && (!s.regs[dst].Undef? ==> Step(prog, s).Running? || (off < 0 && Step(prog, s) == Faulted(BadFlow)))
      case CallLookup => s.regs[1] != MapRef ==> Step(prog, s) == Faulted(BadUse)
      case Exit => !s.regs[0].Scalar? ==> Step(prog, s) == Faulted(BadUse)
      case _ => true
  {
  }

  lemma ShiftConstants()
    ensures Shl64(2, 31) == 0x1_0000_0000
    ensures Shr(0, 31) == 0
    ensures Shr(0x1_0000_0000, 26) == 64
  {
    ShlConstants();
    Shl64Sum(2, 8, 23);
    Shl64Sum(0x200, 8, 15);
    Shl64Sum(0x2_0000, 8, 7);
    ShrConstants();
    ShrSum(0x1_0000_0000, 9, 17);
    ShrSum(0x80_0000, 9, 8);
    ShrZero(31);
  }

  lemma ShlConstants()
    ensures Shl64(2, 8) == 0x200
    ensures Shl64(0x200, 8) == 0x2_0000
    ensures Shl64(0x2_0000, 8) == 0x200_0000
    ensures Shl64(0x200_0000, 7) == 0x1_0000_0000
  {
  }

  lemma ShrConstants()
    ensures Shr(0x1_0000_0000, 9) == 0x80_0000
    ensures Shr(0x80_0000, 9) == 0x4000
    ensures Shr(0x4000, 8) == 64
  {
  }

  lemma {:induction false} ShrZero(n: nat)
    ensures Shr(0, n) == 0
  {
    if n > 0 {
      ShrZero(n - 1);
    }
  }
}
