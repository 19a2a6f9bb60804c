/**
 fallocate04.c (test01 to test05 in order) and fallocate06.c, on the sparse file and for
 every block size.
 */
module FallocateTests {
  import opened Options
  import opened Words
  import opened SparseFile

  datatype Mode = Default | PunchHole | ZeroFill | CollapseOut | InsertIn

  /** An open file with its position. */
  class OpenFile {
    const bs: BlockSize
    var f: File
    var pos: nat

    constructor (bs: BlockSize)
      ensures this.bs == bs && f == EMPTY && pos == 0
    {
      this.bs, this.f, this.pos := bs, EMPTY, 0;
    }

    /** False stands for the kernel's refusal. */
    method Fallocate(mode: Mode, off: nat, len: nat) returns (ok: bool)
      requires |f.alloc| >= |f.bytes|
      modifies `f
      ensures ok == match mode
        case CollapseOut => MayCollapse(bs, old(f), off, len)
        case InsertIn => MayInsert(bs, old(f), off, len)
        case _ => len > 0
      ensures !ok ==> f == old(f)
      ensures ok ==> f == match mode
        case Default => Allocate(bs, old(f), off, len)
        case PunchHole => Punch(bs, old(f), off, len)
        case ZeroFill => ZeroRange(bs, old(f), off, len)
        case CollapseOut => Collapse(bs, old(f), off, len)
        case InsertIn => Insert(bs, old(f), off, len)
    {
      ok := len > 0;
      if !ok {
        return;
      }
      match mode
      case Default => f := Allocate(bs, f, off, len);
      case PunchHole => f := Punch(bs, f, off, len);
      case ZeroFill => f := ZeroRange(bs, f, off, len);
      case CollapseOut =>
        ok := MayCollapse(bs, f, off, len);
        if ok {
          f := Collapse(bs, f, off, len);
        }
      case InsertIn =>
        ok := MayInsert(bs, f, off, len);
        if ok {
          f := Insert(bs, f, off, len);
        }
    }

    method WriteOut(data: seq<Byte>)
      modifies this
      ensures f == Write(bs, old(f), old(pos), data) && pos == old(pos) + |data|
    {
      f := Write(bs, f, pos, data);
      pos := pos + |data|;
    }

    /** lseek(fd, 0, SEEK_HOLE): the first hole, or the end of the file. */
    method SeekHole() returns (r: nat)
      requires |f.alloc| >= |f.bytes|
      ensures r <= |f.bytes| && (r < |f.bytes| ==> !f.alloc[r])
      ensures forall i :: 0 <= i < r ==> f.alloc[i]
    {
      r := 0;
      while r < |f.bytes| && f.alloc[r]
        invariant r <= |f.bytes| && forall i :: 0 <= i < r ==> f.alloc[i]
      {
        r := r + 1;
      }
    }

    /** check_file_data: the file begins with what is expected. */
    method CheckFileData(expected: seq<Byte>) returns (same: bool)
      ensures same <==> |expected| <= |f.bytes| && f.bytes[..|expected|] == expected
    {
      same := |expected| <= |f.bytes| && f.bytes[..|expected|] == expected;
    }

    // ---- the five tests ----

    method Test01() returns (pass: bool)
      requires f == EMPTY && pos == 0
      modifies this
      ensures pass && f == Filled(bs) && pos == 3 * bs
    {
      FilledByWriting(bs);
      pass := Fallocate(Default, 0, 3 * bs);
      assert f.alloc == Flags(3 * bs, true) by { Marks(bs); }
      var buf := new Byte[3 * bs];
      FillTstBuf(buf, bs);
      WriteOut(buf[..]);
    }

    /** The hole is found where it was made, one block is given back, and only it reads as zeros. */
    method Test02() returns (pass: bool)
      requires f == Filled(bs)
      modifies `f
      ensures pass && f == Punched(bs)
    {
      var allocSize0 := AllocSize(f);
      pass := Fallocate(PunchHole, bs, bs);
      FilledThenPunched(bs);
      var hole := SeekHole();
      assert !f.alloc[bs] && hole == bs;
      var allocSize1 := AllocSize(f);
      AllocSizes(bs);
      var expBuf := new Byte[3 * bs];
      FillTstBuf(expBuf, bs);
      Memset(expBuf, bs, bs, 0);
      var same := CheckFileData(expBuf[..]);
      pass := pass && hole == bs && allocSize0 - bs == allocSize1 && same;
    }

    /** Zeroing one byte to either side of the hole fills it in: a block more than before. */
    method Test03() returns (pass: bool)
      requires f == Punched(bs)
      modifies `f
      ensures pass && f == Zeroed(bs)
    {
      hide Down, Up, ZeroRange, Count, Letters;
      var allocSize0 := AllocSize(f);
      pass := Fallocate(ZeroFill, bs - 1, bs + 2);
      PunchedThenZeroed(bs);
      var allocSize1 := AllocSize(f);
      AllocSizes(bs);
      var expBuf := new Byte[3 * bs];
      FillTstBuf(expBuf, bs);
      Memset(expBuf, bs - 1, bs + 2, 0);
      assert f.bytes[..3 * bs] == expBuf[..];
      var same := CheckFileData(expBuf[..]);
      pass := pass && allocSize0 + bs == allocSize1 && same;
    }

    /** The middle block is gone; a zero byte is left on either side of the seam. */
    method Test04() returns (pass: bool)
      requires f == Zeroed(bs)
      modifies `f
      ensures pass && f == Collapsed(bs)
    {
      var allocSize0 := AllocSize(f);
      ZeroedThenCollapsed(bs);
      pass := Fallocate(CollapseOut, bs, bs);
      var allocSize1 := AllocSize(f);
      AllocSizes(bs);
      var tmpBuf := new Byte[3 * bs];
      FillTstBuf(tmpBuf, bs);
      var expBuf: seq<Byte> := tmpBuf[..bs] + tmpBuf[2 * bs..];
      expBuf := expBuf[bs - 1 := 0][bs := 0];
      assert f.bytes == expBuf == f.bytes[..2 * bs];
      var same := CheckFileData(expBuf);
      pass := pass && allocSize0 - bs == allocSize1 && same;
    }

    /** A block is put back in the middle and allocated: the file is as after the third test. */
    method Test05() returns (pass: bool)
      requires f == Collapsed(bs)
      modifies `f
      ensures pass && f == Zeroed(bs)
    {
      hide Down, Up, ZeroRange, Insert, Count, Letters;
      var allocSize0 := AllocSize(f);
      InsertedThenZeroed(bs);
      pass := Fallocate(InsertIn, bs, bs);
      var pass' := Fallocate(ZeroFill, bs, bs);
      var allocSize1 := AllocSize(f);
      AllocSizes(bs);
      var expBuf := new Byte[3 * bs];
      FillTstBuf(expBuf, bs);
      Memset(expBuf, bs - 1, bs + 2, 0);
      assert f.bytes[..3 * bs] == expBuf[..];
      var same := CheckFileData(expBuf[..]);
      pass := pass && pass' && allocSize0 + bs == allocSize1 && same;
    }
  }

  // ---- the buffers ----

  const CH_A: Byte := 97

  /** a, b and c, a block of each. */
  function Letters(bs: BlockSize): (b: seq<Byte>)
    ensures |b| == 3 * bs
  {
    seq(3 * bs, i => if i < bs then CH_A else if i < 2 * bs then CH_A + 1 else CH_A + 2)
  }

  function Filled(bs: BlockSize): File {
    File(Letters(bs), Flags(3 * bs, true))
  }

  function Punched(bs: BlockSize): File {
    File(Fill(Letters(bs), bs, 2 * bs, 0), Fill(Flags(3 * bs, true), bs, 2 * bs, false))
  }

  function Zeroed(bs: BlockSize): File {
    File(Fill(Letters(bs), bs - 1, 2 * bs + 1, 0), Flags(3 * bs, true))
  }

  function Collapsed(bs: BlockSize): File {
    var b := Zeroed(bs).bytes;
    File(b[..bs] + b[2 * bs..], Flags(2 * bs, true))
  }

  /** The four states in plain bytes: letters, and zeros where the tests expect them. */
  lemma ExpectedBytes(bs: BlockSize, i: nat)
    requires i < 3 * bs
    ensures |Filled(bs).bytes| == |Filled(bs).alloc| == |Punched(bs).bytes| == |Punched(bs).alloc| == 3 * bs
    ensures |Zeroed(bs).bytes| == |Zeroed(bs).alloc| == 3 * bs && |Collapsed(bs).bytes| == |Collapsed(bs).alloc| == 2 * bs
    ensures var letter := if i < bs then 'a' else if i < 2 * bs then 'b' else 'c';
      && Filled(bs).bytes[i] as char == letter
      && Punched(bs).bytes[i] == (if bs <= i < 2 * bs then 0 else letter as int)
      && Zeroed(bs).bytes[i] == (if bs - 1 <= i <= 2 * bs then 0 else letter as int)
    ensures i < 2 * bs ==>
      Collapsed(bs).bytes[i] == if i < bs - 1 then 'a' as int else if i <= bs then 0 else 'c' as int
    ensures Filled(bs).alloc[i] && Zeroed(bs).alloc[i] && (Punched(bs).alloc[i] <==> !(bs <= i < 2 * bs))
    ensures i < 2 * bs ==> Collapsed(bs).alloc[i]
  {
  }

  method Memset(buf: array<Byte>, at: nat, n: nat, c: Byte)
    requires at + n <= buf.Length
    modifies buf
    ensures buf[..] == Fill(old(buf[..]), at, at + n, c)
  {
    forall i | at <= i < at + n {
      buf[i] := c;
    }
  }

  method FillTstBuf(buf: array<Byte>, bs: BlockSize)
    requires buf.Length == 3 * bs
    modifies buf
    ensures buf[..] == Letters(bs)
    ensures forall i :: 0 <= i < 3 * bs ==> buf[i] == if i < bs then 97 else if i < 2 * bs then 98 else 99
  {
    var i, at := 0, 0;
    while i < 3
      invariant 0 <= i <= 3 && at == (if i == 0 then 0 else if i == 1 then bs else if i == 2 then 2 * bs else 3 * bs)
      invariant forall k :: 0 <= k < at ==> buf[..][k] == Letters(bs)[k]
    {
      Memset(buf, at, bs, CH_A + i);
      i, at := i + 1, at + bs;
    }
  }

  // ---- the block boundaries the tests use ----

  lemma Multiples(bs: BlockSize)
    ensures Aligned(bs, 0) && Aligned(bs, bs) && Aligned(bs, 2 * bs) && Aligned(bs, 3 * bs)
  {
    RemainderIs(0, bs, 0, 0);
    RemainderIs(bs, bs, 1, 0);
    RemainderIs(2 * bs, bs, 2, 0);
    RemainderIs(3 * bs, bs, 3, 0);
  }

  lemma Marks(bs: BlockSize)
    ensures Aligned(bs, bs) && Aligned(bs, 2 * bs) && Aligned(bs, 3 * bs)
    ensures Down(bs, 0) == 0 && Up(bs, bs) == bs && Down(bs, bs) == bs
    ensures Up(bs, 2 * bs) == 2 * bs && Down(bs, 2 * bs) == 2 * bs && Up(bs, 3 * bs) == 3 * bs
    ensures Down(bs, bs - 1) == 0 && Up(bs, 2 * bs + 1) == 3 * bs
  {
    hide Aligned, Down, Up;
    Multiples(bs);
    Boundary(bs, 0, bs - 1);
    Boundary(bs, 0, 0);
    Boundary(bs, bs, bs);
    Boundary(bs, 2 * bs, 2 * bs + 1);
    Boundary(bs, 3 * bs, 3 * bs);
  }

  lemma FilledThenPunched(bs: BlockSize)
    ensures Punch(bs, Filled(bs), bs, bs) == Punched(bs)
  {
    Marks(bs);
  }

  lemma PunchedThenZeroed(bs: BlockSize)
    ensures ZeroRange(bs, Punched(bs), bs - 1, bs + 2) == Zeroed(bs)
  {
    Marks(bs);
    var z := ZeroRange(bs, Punched(bs), bs - 1, bs + 2);
    assert z.bytes == Zeroed(bs).bytes;
    assert z.alloc == Zeroed(bs).alloc;
  }

  lemma ZeroedThenCollapsed(bs: BlockSize)
    ensures MayCollapse(bs, Zeroed(bs), bs, bs)
    ensures Collapse(bs, Zeroed(bs), bs, bs) == Collapsed(bs)
  {
    Marks(bs);
    assert Collapse(bs, Zeroed(bs), bs, bs).alloc == Collapsed(bs).alloc;
  }

  /** Three blocks, two, three, two. */
  lemma AllocSizes(bs: BlockSize)
    ensures AllocSize(Filled(bs)) == 3 * bs && AllocSize(Punched(bs)) == 2 * bs
    ensures AllocSize(Zeroed(bs)) == 3 * bs && AllocSize(Collapsed(bs)) == 2 * bs
  {
    CountSame(Flags(3 * bs, true), true);
    CountSame(Flags(2 * bs, true), true);
    CountFill(Flags(3 * bs, true), bs, 2 * bs, false);
  }

  lemma InsertedThenZeroed(bs: BlockSize)
    ensures MayInsert(bs, Collapsed(bs), bs, bs)
    ensures var i := Insert(bs, Collapsed(bs), bs, bs);
      |i.alloc| >= |i.bytes| && ZeroRange(bs, i, bs, bs) == Zeroed(bs)
  {
    Marks(bs);
    var c := Collapsed(bs);
    var i := Insert(bs, c, bs, bs);
    assert i.alloc == Fill(Flags(3 * bs, true), bs, 2 * bs, false);
    var z := ZeroRange(bs, i, bs, bs);
    assert z.alloc == Zeroed(bs).alloc;
    assert |i.bytes| == 3 * bs;
    assert Fill(i.bytes, bs, 2 * bs, 0) == Zeroed(bs).bytes;
  }

  lemma FilledByWriting(bs: BlockSize)
    ensures Write(bs, Allocate(bs, EMPTY, 0, 3 * bs), 0, Letters(bs)) == Filled(bs)
  {
    Marks(bs);
    var a := Allocate(bs, EMPTY, 0, 3 * bs);
    var w := Write(bs, a, 0, Letters(bs));
    assert w.bytes == Letters(bs);
    assert w.alloc == Flags(3 * bs, true);
  }

  /** The five tests in the order they run, on a new file. */
  method RunFallocate04(bs: BlockSize) returns (pass: bool)
    ensures pass
  {
    var file := new OpenFile(bs);
    var t1 := file.Test01();
    var t2 := file.Test02();
    var t3 := file.Test03();
    var t4 := file.Test04();
    var t5 := file.Test05();
    pass := t1 && t2 && t3 && t4 && t5;
  }

  // ---- fallocate06.c ----

  const WRITE_BLOCKS := 8
  const FALLOCATE_BLOCKS := 2
  const DEALLOCATE_BLOCKS := 3

  /** The write buffer counts up from 1 in an unsigned char. */
  function Counting(n: nat): (b: seq<Byte>)
    ensures |b| == n
  {
    seq(n, i requires i >= 0 => (i + 1) % 256)
  }

  /** Which starts at 1 and goes from 255 back to 0. */
  lemma CountsUp(n: nat, i: nat)
    requires i < n
    ensures Counting(n)[i] == if i == 0 then 1 else if Counting(n)[i - 1] == 255 then 0 else Counting(n)[i - 1] + 1
  {
  }

  method FillCounting(wbuf: array<Byte>)
    modifies wbuf
    ensures wbuf[..] == Counting(wbuf.Length)
  {
    var i, ch := 0, 1;
    while i < wbuf.Length
      invariant 0 <= i <= wbuf.Length && 0 <= ch < 256 && ch == (i + 1) % 256
      invariant forall k :: 0 <= k < i ==> wbuf[k] == (k + 1) % 256
    {
      wbuf[i] := ch;
      i := i + 1;
      ch := if ch == 255 then 0 else ch + 1;
    }
  }

  /** The three-part check accepts exactly the written data with the range zeroed. */
  method RangeCleared(rbuf: seq<Byte>, wbuf: seq<Byte>, offset: nat, size: nat) returns (cleared: bool)
    requires offset + size <= |rbuf| <= |wbuf|
    ensures cleared <==> rbuf == Fill(wbuf[..|rbuf|], offset, offset + size, 0)
  {
    var err := false;
    var i := offset;
    while i < offset + size && !err
      invariant offset <= i <= offset + size
      invariant err ==> exists k :: offset <= k < offset + size && rbuf[k] != 0
      invariant !err ==> forall k :: offset <= k < i ==> rbuf[k] == 0
      decreases offset + size - i, !err
    {
      if rbuf[i] != 0 {
        err := true;
      } else {
        i := i + 1;
      }
    }
    ghost var expected := Fill(wbuf[..|rbuf|], offset, offset + size, 0);
    err := err || rbuf[..offset] != wbuf[..offset];
    var tail := offset + size;
    err := err || rbuf[tail..] != wbuf[tail..|rbuf|];
    cleared := !err;
    ThreeParts(rbuf, wbuf, offset, tail);
  }

  lemma ThreeParts(rbuf: seq<Byte>, wbuf: seq<Byte>, lo: nat, hi: nat)
    requires lo <= hi <= |rbuf| <= |wbuf|
    ensures rbuf == Fill(wbuf[..|rbuf|], lo, hi, 0) <==>
      && (forall k :: lo <= k < hi ==> rbuf[k] == 0)
      && rbuf[..lo] == wbuf[..lo] && rbuf[hi..] == wbuf[hi..|rbuf|]
  {
    var w := wbuf[..|rbuf|];
    if rbuf[..lo] == wbuf[..lo] && rbuf[hi..] == wbuf[hi..|rbuf|] {
      forall k | 0 <= k < |rbuf| && !(lo <= k < hi)
        ensures rbuf[k] == w[k]
      {
        if k < lo {
          assert rbuf[..lo][k] == wbuf[..lo][k];
        } else {
          assert rbuf[hi..][k - hi] == wbuf[hi..|rbuf|][k - hi];
        }
      }
    }
  }

  /** The misaligned punch covers two whole blocks and pieces of two more. */
  lemma MisalignedMarks(bs: BlockSize, o: nat)
    requires 0 < o < bs
    ensures Up(bs, o) == bs && Down(bs, o + 3 * bs) == 3 * bs
  {
    hide Aligned, Down, Up;
    Multiples(bs);
    Boundary(bs, 0, o);
    Boundary(bs, 3 * bs, o + 3 * bs);
  }

  /** Of the three blocks' worth punched, the two whole blocks are given back. */
  lemma MisalignedPunchFreesTwo(bs: BlockSize, f: File, o: nat)
    requires Valid(bs, f) && 0 < o < bs && (DEALLOCATE_BLOCKS + 1) * bs <= |f.bytes|
    requires forall i :: 0 <= i < (DEALLOCATE_BLOCKS + 1) * bs ==> f.alloc[i]
    ensures AllocSize(Punch(bs, f, o, DEALLOCATE_BLOCKS * bs)) == AllocSize(f) - (DEALLOCATE_BLOCKS - 1) * bs
  {
    hide Aligned, Down, Up, Fill, Count;
    MisalignedMarks(bs, o);
    PunchExactly(bs, f, o, DEALLOCATE_BLOCKS * bs);
  }

  /** Allocating part of an allocated range again changes nothing. */
  lemma AllocateAgain(bs: BlockSize, f: File, off: nat, len: nat, n: nat)
    requires Valid(bs, f) && n <= len
    ensures var a := Allocate(bs, f, off, len); Allocate(bs, a, off, n) == a
  {
    hide Down, Up, Blockwise, HolesAreZero;
    var a := Allocate(bs, f, off, len);
    AllocateKeeps(bs, f, off, len);
    UpGrows(bs, off + n, off + len);
    UpGrows(bs, off + len, |a.bytes|);
    assert Extend(bs, a, off + n) == a;
    FillAgain(Extend(bs, f, off + len).alloc, Down(bs, off), Up(bs, off + n), Up(bs, off + len));
  }

  lemma FillAgain(s: seq<bool>, lo: nat, mid: nat, hi: nat)
    requires mid <= hi
    ensures Fill(Fill(s, lo, hi, true), lo, mid, true) == Fill(s, lo, hi, true)
  {
  }

  /** A write inside a preallocated range, aligned or not, takes no further block. */
  lemma PreallocationCovers(bs: BlockSize, f: File, off: nat, len: nat, data: seq<Byte>)
    requires Valid(bs, f) && |data| <= len
    ensures var a := Allocate(bs, f, off, len);
      Write(bs, a, off, data).alloc == a.alloc && |Write(bs, a, off, data).bytes| == |a.bytes|
  {
    AllocateAgain(bs, f, off, len, |data|);
  }

  /** A row of the table: whether copy-on-write is off, whether the filesystem is filled up. */
  datatype Case = Case(noCow: bool, fillFs: bool)

  /** check_result for a call that fails, if it does, with ENOSPC. */
  function CheckResult(tc: Case, ret: int, expected: int): bool {
    if tc.fillFs && !tc.noCow && ret < 0 then ret == -1 else ret == expected
  }

  /** Besides the expected answer only an ENOSPC with copy-on-write on a full filesystem will do. */
  lemma CheckResultAccepts(tc: Case, ret: int, expected: int)
    requires ret >= -1 && expected >= 0
    ensures CheckResult(tc, ret, expected) <==> ret == expected || (ret == -1 && tc == Case(false, true))
  {
  }

  /** What the kernel has left on a filled filesystem, and what it may want besides for copy-on-write. */
  datatype Space = Space(free: nat, forCopies: nat)

  /** Whether an operation that allocates this much goes through. */
  predicate Enough(tc: Case, sp: Space, needed: int) {
    !tc.fillFs || needed + (if tc.noCow then 0 else sp.forCopies) <= sp.free
  }

  lemma CountFalse(a: seq<bool>, n: nat)
    ensures Count(a + Flags(n, false)) == Count(a)
  {
    CountAppend(a, Flags(n, false));
    CountSame(Flags(n, false), false);
  }

  /** Without the preallocation the write past the end would not fit on a full filesystem. */
  lemma PreallocationNeeded(bs: BlockSize, f: File, off: nat, data: seq<Byte>, sp: Space)
    requires Valid(bs, f) && |f.alloc| <= off && data != [] && sp.free < |data|
    ensures !Enough(Case(true, true), sp, AllocSize(Write(bs, f, off, data)) - AllocSize(f))
  {
    hide Up, Aligned, HolesAreZero, Blockwise;
    var e := Extend(bs, f, off + |data|);
    var lo, hi := Down(bs, off), Up(bs, off + |data|);
    UpGrows(bs, |f.bytes|, off + |data|);
    RoundedIsAligned(bs, |f.bytes|);
    StaysBehind(bs, |f.alloc|, off);
    assert e.alloc == f.alloc + Flags(hi - |f.alloc|, false);
    CountFalse(f.alloc, hi - |f.alloc|);
    CountFill(e.alloc, lo, hi, true);
    assert Write(bs, f, off, data).alloc == Fill(e.alloc, lo, hi, true);
  }

  /** Writes the data, preallocates two blocks past its end at a misaligned offset, writes there. */
  method WriteMisaligned(bs: BlockSize, tc: Case, sp: Space, data: seq<Byte>, offset: nat)
    returns (file: OpenFile, ret: int, passed: bool)
    requires |data| == WRITE_BLOCKS * bs <= offset
    ensures fresh(file) && file.bs == bs && passed
    ensures ret == -1 <==> tc.fillFs && !tc.noCow && sp.forCopies > sp.free
    ensures ret == -1 || ret == FALLOCATE_BLOCKS * bs
    ensures |file.f.bytes| == offset + FALLOCATE_BLOCKS * bs
    ensures ret != -1 ==> file.f.bytes[offset..] == data[..ret]
    ensures |file.f.alloc| >= |file.f.bytes| >= |data| && file.f.bytes[..|data|] == data
  {
    hide Allocate, Write, Down, Up, Count;
    var size: nat := FALLOCATE_BLOCKS * bs;
    file := new OpenFile(bs);
    file.WriteOut(data);
    WrittenWhole(bs, data);
    ghost var start := file.f;
    var ok := file.Fallocate(Default, offset, size);
    AllocateKeeps(bs, start, offset, size);
    PreallocationCovers(bs, start, offset, size, data[..size]);
    StillFirst(bs, start, offset, size, data[..size]);
    AllocateExactly(bs, start, offset, size);
    WriteBytes(bs, file.f, offset, data[..size]);
    ret := -1;
    if Enough(tc, sp, AllocSize(Write(bs, file.f, offset, data[..size])) - AllocSize(file.f)) {
      file.pos := offset;
      file.WriteOut(data[..size]);
      ret := size;
    }
    passed := CheckResult(tc, ret, size);
  }

  /** What a run reports; cleared is absent when the punch was refused. */
  datatype Report06 = Report06(written: bool, punched: bool, cleared: Option<bool>)

  /**
   Preallocate past the end at a misaligned offset, fill the filesystem if the case says so,
   write there, punch a misaligned range.  In every case every report is a pass, whatever
   space is left; the range is checked unless copy-on-write on a full filesystem is refused.
   */
  method RunFallocate06(bs: BlockSize, tc: Case, sp: Space, forPunch: Space) returns (r: Report06)
    ensures r.written && r.punched
    ensures r.cleared == if tc.fillFs && !tc.noCow && forPunch.forCopies > forPunch.free then None else Some(true)
  {
    var blockOffset := if bs / 2 < 512 then bs / 2 else 512;
    var wbuf := new Byte[WRITE_BLOCKS * bs];
    FillCounting(wbuf);
    var data := wbuf[..];
    var file, ret, written := WriteMisaligned(bs, tc, sp, data, WRITE_BLOCKS * bs + blockOffset);
    ghost var was := file.f.bytes;
    var size: nat, rbufSize: nat := DEALLOCATE_BLOCKS * bs, (DEALLOCATE_BLOCKS + 1) * bs;
    ret := -1;
    if Enough(tc, forPunch, 0) {
      var ok := file.Fallocate(PunchHole, blockOffset, size);
      ret := 0;
    }
    var punched := CheckResult(tc, ret, 0);
    if !punched || ret != 0 {
      return Report06(written, punched, None);
    }
    var rbuf := file.f.bytes[..rbufSize];
    FillPrefix(was, data, rbufSize, blockOffset, blockOffset + size);
    var cleared := RangeCleared(rbuf, data, blockOffset, size);
    r := Report06(written, punched, Some(cleared));
  }

  lemma WrittenWhole(bs: BlockSize, data: seq<Byte>)
    requires |data| == WRITE_BLOCKS * bs
    ensures Write(bs, EMPTY, 0, data).bytes == data
    ensures Valid(bs, Write(bs, EMPTY, 0, data))
  {
    Boundary(bs, 0, 0);
    AlignedSums(bs, 0, 0);
    RemainderIs(0, bs, 0, 0);
    assert Valid(bs, EMPTY);
    ZeroAndWriteKeep(bs, EMPTY, 0, data);
  }

  /** Allocating and writing past the old end leaves what was there. */
  lemma StillFirst(bs: BlockSize, f: File, off: nat, len: nat, data: seq<Byte>)
    requires Valid(bs, f) && |f.bytes| <= off && |data| <= len
    ensures var w := Write(bs, Allocate(bs, f, off, len), off, data);
      |w.bytes| >= |f.bytes| && w.bytes[..|f.bytes|] == f.bytes
    ensures var a := Allocate(bs, f, off, len);
      |a.bytes| >= |f.bytes| && a.bytes[..|f.bytes|] == f.bytes
  {
  }

  lemma FillPrefix(long: seq<Byte>, short: seq<Byte>, n: nat, lo: nat, hi: nat)
    requires n <= |short| <= |long| && long[..|short|] == short
    ensures Fill(long, lo, hi, 0)[..n] == Fill(short[..n], lo, hi, 0)
  {
    forall i | 0 <= i < n
      ensures long[i] == short[i]
    {
      assert long[..|short|][i] == short[i];
    }
  }
}
