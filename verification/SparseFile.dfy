/**
 A file with holes, as fallocate04.c and fallocate06.c use it: bytes and an allocation map,
 with punch, zero, collapse, insert and preallocation for every block size and range.
 */
module SparseFile {
  import opened Words

  // ---- block boundaries ----

  type BlockSize = n: nat | n >= 1 witness 1

  function Down(bs: BlockSize, x: nat): (d: nat)
    ensures d <= x < d + bs
  {
    x - x % bs
  }

  function Up(bs: BlockSize, x: nat): (u: nat)
    ensures x <= u < x + bs
  {
    Down(bs, x + bs - 1)
  }

  predicate Aligned(bs: BlockSize, x: nat) {
    x % bs == 0
  }

  /** The multiples of the block size. */
  lemma AlignedExactly(bs: BlockSize, x: nat)
    ensures Aligned(bs, x) <==> exists k: nat :: x == Times(bs, k)
  {
    if Aligned(bs, x) {
      assert x == Times(bs, x / bs);
    }
    if exists k: nat :: x == Times(bs, k) {
      var k: nat :| x == Times(bs, k);
      RemainderIs(x, bs, k, 0);
    }
  }

  function Times(bs: BlockSize, k: nat): int {
    bs * k
  }

  lemma MulAtLeast(p: int, d: int)
    requires p >= 0
    ensures d >= 1 ==> p * d >= p
    ensures d <= -1 ==> p * d <= -p
  {
    if d >= 1 {
      assert p * (d - 1) >= 0;
    } else if d <= -1 {
      assert p * (-1 - d) >= 0;
    }
  }

  lemma RemainderIs(a: nat, p: nat, q: int, r: nat)
    requires p >= 1 && a == p * q + r && r < p
    ensures a % p == r
  {
    var q', r' := a / p, a % p;
    MulAtLeast(p, q - q');
    assert p * (q - q') == p * q - p * q' == r' - r;
  }

  /** Moving by whole blocks keeps the place inside the block. */
  lemma SamePlace(bs: BlockSize, x: nat, m: nat)
    requires Aligned(bs, m)
    ensures (x + m) % bs == x % bs
    ensures Down(bs, x + m) == Down(bs, x) + m && Up(bs, x + m) == Up(bs, x) + m
  {
    SamePlaceMod(bs, x, m);
    SamePlaceMod(bs, x + bs - 1, m);
  }

  lemma SamePlaceMod(bs: BlockSize, x: nat, m: nat)
    requires Aligned(bs, m)
    ensures (x + m) % bs == x % bs
  {
    var k, q := m / bs, x / bs;
    assert m == bs * k && x == bs * q + x % bs;
    assert bs * (q + k) == bs * q + bs * k;
    RemainderIs(x + m, bs, q + k, x % bs);
  }

  lemma AlignedSums(bs: BlockSize, a: nat, b: nat)
    requires Aligned(bs, a) && Aligned(bs, b)
    ensures Aligned(bs, a + b) && Aligned(bs, 0)
  {
    SamePlaceMod(bs, a, b);
    RemainderIs(0, bs, 0, 0);
  }

  lemma Boundary(bs: BlockSize, m: nat, x: nat)
    requires Aligned(bs, m)
    ensures m <= x < m + bs ==> Down(bs, x) == m
    ensures m < x <= m + bs ==> Up(bs, x) == m + bs
    ensures Up(bs, m) == m && Down(bs, m) == m
  {
    if m <= x {
      SamePlace(bs, x - m, m);
      Inside(bs, x - m);
    }
    SamePlace(bs, 0, m);
    Inside(bs, 0);
  }

  lemma Inside(bs: BlockSize, x: nat)
    ensures x < bs ==> Down(bs, x) == 0
    ensures 0 < x <= bs ==> Up(bs, x) == bs
    ensures Up(bs, 0) == 0
  {
    if x < bs {
      RemainderIs(x, bs, 0, x);
    }
    RemainderIs(bs - 1, bs, 0, bs - 1);
    if 0 < x <= bs {
      RemainderIs(x + bs - 1, bs, 1, x - 1);
    }
  }

  // ---- files ----

  /** alloc has one flag for every byte of every block the file spans. */
  datatype File = File(bytes: seq<Byte>, alloc: seq<bool>)

  const EMPTY := File([], [])

  /** The map covers whole blocks, gives one answer for each, and holes read as zeros. */
  ghost predicate Valid(bs: BlockSize, f: File) {
    && |f.alloc| == Up(bs, |f.bytes|)
    && HolesAreZero(f)
    && Blockwise(bs, f.alloc)
  }

  ghost predicate HolesAreZero(f: File)
    requires |f.alloc| >= |f.bytes|
  {
    forall i :: 0 <= i < |f.bytes| && !f.alloc[i] ==> f.bytes[i] == 0
  }

  ghost predicate Blockwise(bs: BlockSize, alloc: seq<bool>) {
    forall i :: 0 <= i < |alloc| ==> alloc[i] == alloc[Down(bs, i)]
  }

  function Flags(n: nat, b: bool): (z: seq<bool>)
    ensures |z| == n && forall i :: 0 <= i < n ==> z[i] == b
  {
    seq(n, _ => b)
  }

  /** Elements lo to hi replaced by x, as far as the sequence goes. */
  function Fill<T>(s: seq<T>, lo: nat, hi: nat, x: T): (r: seq<T>)
    ensures |r| == |s|
    ensures forall i :: 0 <= i < |s| ==> r[i] == if lo <= i < hi then x else s[i]
  {
    seq(|s|, i requires 0 <= i < |s| => if lo <= i < hi then x else s[i])
  }

  function Grow<T>(s: seq<T>, n: nat, x: T): (r: seq<T>)
    ensures |r| == if n > |s| then n else |s|
    ensures forall i :: 0 <= i < |r| ==> r[i] == if i < |s| then s[i] else x
  {
    if n > |s| then s + seq(n - |s|, _ => x) else s
  }

  /** The file made at least n bytes long, by a hole. */
  function Extend(bs: BlockSize, f: File, n: nat): File {
    File(Grow(f.bytes, n, 0), Grow(f.alloc, Up(bs, n), false))
  }

  /** FALLOC_FL_PUNCH_HOLE | FALLOC_FL_KEEP_SIZE: frees the blocks wholly inside the range. */
  function Punch(bs: BlockSize, f: File, off: nat, len: nat): File {
    File(Fill(f.bytes, off, off + len, 0), Fill(f.alloc, Up(bs, off), Down(bs, off + len), false))
  }

  /** Plain fallocate: allocates every block the range touches and grows the file. */
  function Allocate(bs: BlockSize, f: File, off: nat, len: nat): File {
    var e := Extend(bs, f, off + len);
    File(e.bytes, Fill(e.alloc, Down(bs, off), Up(bs, off + len), true))
  }

  /** FALLOC_FL_ZERO_RANGE: allocates and zeroes. */
  function ZeroRange(bs: BlockSize, f: File, off: nat, len: nat): File {
    var a := Allocate(bs, f, off, len);
    File(Fill(a.bytes, off, off + len, 0), a.alloc)
  }

  function Overlay(s: seq<Byte>, off: nat, data: seq<Byte>): (r: seq<Byte>)
    requires off + |data| <= |s|
    ensures |r| == |s|
    ensures forall i :: 0 <= i < |s| ==> r[i] == if off <= i < off + |data| then data[i - off] else s[i]
  {
    s[..off] + data + s[off + |data|..]
  }

  function Write(bs: BlockSize, f: File, off: nat, data: seq<Byte>): File {
    if data == [] then f
    else
      var a := Allocate(bs, f, off, |data|);
      File(Overlay(a.bytes, off, data), a.alloc)
  }

  /** FALLOC_FL_COLLAPSE_RANGE is refused unless aligned and short of the end of the file. */
  predicate MayCollapse(bs: BlockSize, f: File, off: nat, len: nat) {
    Aligned(bs, off) && Aligned(bs, len) && len > 0 && off + len < |f.bytes|
  }

  function Collapse(bs: BlockSize, f: File, off: nat, len: nat): File
    requires MayCollapse(bs, f, off, len) && |f.alloc| >= |f.bytes|
  {
    File(f.bytes[..off] + f.bytes[off + len..], f.alloc[..off] + f.alloc[off + len..])
  }

  /** FALLOC_FL_INSERT_RANGE is refused unless aligned and inside the file. */
  predicate MayInsert(bs: BlockSize, f: File, off: nat, len: nat) {
    Aligned(bs, off) && Aligned(bs, len) && len > 0 && off < |f.bytes|
  }

  function Insert(bs: BlockSize, f: File, off: nat, len: nat): File
    requires MayInsert(bs, f, off, len) && |f.alloc| >= |f.bytes|
  {
    File(f.bytes[..off] + Zeros(len) + f.bytes[off..], f.alloc[..off] + Flags(len, false) + f.alloc[off..])
  }

  function Count(a: seq<bool>): nat {
    if a == [] then 0 else Count(a[..|a| - 1]) + if a[|a| - 1] then 1 else 0
  }

  /** st_blocks in bytes. */
  function AllocSize(f: File): nat {
    Count(f.alloc)
  }

  // ---- every operation keeps the file valid ----

  lemma FillKeepsBlocks(bs: BlockSize, a: seq<bool>, lo: nat, hi: nat, b: bool)
    requires Blockwise(bs, a) && Aligned(bs, lo) && Aligned(bs, hi)
    ensures Blockwise(bs, Fill(a, lo, hi, b))
  {
    var r := Fill(a, lo, hi, b);
    forall i | 0 <= i < |r|
      ensures r[i] == r[Down(bs, i)]
    {
      StaysBehind(bs, lo, i);
      StaysBehind(bs, hi, i);
    }
  }

  lemma AppendKeepsBlocks(bs: BlockSize, a: seq<bool>, b: seq<bool>)
    requires Blockwise(bs, a) && Blockwise(bs, b) && Aligned(bs, |a|)
    ensures Blockwise(bs, a + b)
  {
    var r := a + b;
    forall i | 0 <= i < |r|
      ensures r[i] == r[Down(bs, i)]
    {
      StaysBehind(bs, |a|, i);
      if i >= |a| {
        SamePlace(bs, i - |a|, |a|);
        assert b[i - |a|] == b[Down(bs, i - |a|)];
      }
    }
  }

  lemma SliceKeepsBlocks(bs: BlockSize, a: seq<bool>, lo: nat, hi: nat)
    requires Blockwise(bs, a) && Aligned(bs, lo) && lo <= hi <= |a|
    ensures Blockwise(bs, a[lo..hi])
  {
    var r := a[lo..hi];
    forall i | 0 <= i < |r|
      ensures r[i] == r[Down(bs, i)]
    {
      SamePlace(bs, i, lo);
      assert a[lo + i] == a[Down(bs, lo + i)];
    }
  }

  lemma UniformIsBlockwise(bs: BlockSize, n: nat, b: bool)
    ensures Blockwise(bs, Flags(n, b))
  {
  }

  /** A byte is at or past a boundary exactly when its block is. */
  lemma StaysBehind(bs: BlockSize, m: nat, x: nat)
    requires Aligned(bs, m)
    ensures m <= x <==> m <= Down(bs, x)
  {
    if m <= x {
      SamePlace(bs, x - m, m);
    }
  }

  lemma RoundedIsAligned(bs: BlockSize, x: nat)
    ensures Aligned(bs, Down(bs, x)) && Aligned(bs, Up(bs, x))
  {
    DownIsAligned(bs, x);
    DownIsAligned(bs, x + bs - 1);
  }

  lemma DownIsAligned(bs: BlockSize, x: nat)
    ensures Aligned(bs, Down(bs, x))
  {
    assert x == bs * (x / bs) + x % bs;
    RemainderIs(Down(bs, x), bs, x / bs, 0);
  }

  lemma UpGrows(bs: BlockSize, x: nat, y: nat)
    requires x <= y
    ensures Up(bs, x) <= Up(bs, y)
  {
    RoundedIsAligned(bs, y);
    RoundedIsAligned(bs, x);
    if Up(bs, y) < Up(bs, x) {
      StaysBehind(bs, Up(bs, x), x + bs - 1);
      Boundary(bs, Up(bs, y), x);
      StaysBehind(bs, Up(bs, x), y + bs - 1);
    }
  }

  lemma PunchKeeps(bs: BlockSize, f: File, off: nat, len: nat)
    requires Valid(bs, f)
    ensures Valid(bs, Punch(bs, f, off, len))
  {
    RoundedIsAligned(bs, off);
    RoundedIsAligned(bs, off + len);
    FillKeepsBlocks(bs, f.alloc, Up(bs, off), Down(bs, off + len), false);
  }

  lemma ExtendKeeps(bs: BlockSize, f: File, n: nat)
    requires Valid(bs, f)
    ensures Valid(bs, Extend(bs, f, n))
  {
    var e := Extend(bs, f, n);
    RoundedIsAligned(bs, |f.bytes|);
    if n > |f.bytes| {
      UpGrows(bs, |f.bytes|, n);
      var more := Up(bs, n) - |f.alloc|;
      UniformIsBlockwise(bs, more, false);
      AppendKeepsBlocks(bs, f.alloc, Flags(more, false));
      assert e.alloc == f.alloc + Flags(more, false);
    } else {
      UpGrows(bs, n, |f.bytes|);
    }
  }

  lemma AllocateKeeps(bs: BlockSize, f: File, off: nat, len: nat)
    requires Valid(bs, f)
    ensures Valid(bs, Allocate(bs, f, off, len))
  {
    hide Down, Up;
    ExtendKeeps(bs, f, off + len);
    RoundedIsAligned(bs, off);
    RoundedIsAligned(bs, off + len);
    AllocatingKeeps(bs, Extend(bs, f, off + len), Down(bs, off), Up(bs, off + len));
  }

  lemma AllocatingKeeps(bs: BlockSize, f: File, lo: nat, hi: nat)
    requires Valid(bs, f) && Aligned(bs, lo) && Aligned(bs, hi)
    ensures Valid(bs, File(f.bytes, Fill(f.alloc, lo, hi, true)))
  {
    hide Down, Up;
    FillKeepsBlocks(bs, f.alloc, lo, hi, true);
    AllocatingKeepsHoles(f, lo, hi);
  }

  lemma AllocatingKeepsHoles(f: File, lo: nat, hi: nat)
    requires |f.alloc| >= |f.bytes| && HolesAreZero(f)
    ensures HolesAreZero(File(f.bytes, Fill(f.alloc, lo, hi, true)))
  {
  }

  lemma ZeroAndWriteKeep(bs: BlockSize, f: File, off: nat, data: seq<Byte>)
    requires Valid(bs, f)
    ensures Valid(bs, ZeroRange(bs, f, off, |data|)) && Valid(bs, Write(bs, f, off, data))
  {
    AllocateKeeps(bs, f, off, |data|);
  }

  lemma InsertBlockwise(bs: BlockSize, a: seq<bool>, off: nat, len: nat)
    requires Blockwise(bs, a) && Aligned(bs, off) && Aligned(bs, len) && off <= |a|
    ensures Blockwise(bs, a[..off] + Flags(len, false) + a[off..])
  {
    AlignedSums(bs, off, len);
    SliceKeepsBlocks(bs, a, 0, off);
    SliceKeepsBlocks(bs, a, off, |a|);
    UniformIsBlockwise(bs, len, false);
    AppendKeepsBlocks(bs, a[..off], Flags(len, false));
    AppendKeepsBlocks(bs, a[..off] + Flags(len, false), a[off..]);
  }

  lemma CollapseBlockwise(bs: BlockSize, a: seq<bool>, off: nat, len: nat)
    requires Blockwise(bs, a) && Aligned(bs, off) && Aligned(bs, len) && off + len <= |a|
    ensures Blockwise(bs, a[..off] + a[off + len..])
  {
    AlignedSums(bs, off, len);
    SliceKeepsBlocks(bs, a, 0, off);
    SliceKeepsBlocks(bs, a, off + len, |a|);
    AppendKeepsBlocks(bs, a[..off], a[off + len..]);
  }

  lemma InsertKeeps(bs: BlockSize, f: File, off: nat, len: nat)
    requires Valid(bs, f) && MayInsert(bs, f, off, len)
    ensures Valid(bs, Insert(bs, f, off, len))
  {
    hide Down, Up;
    SamePlace(bs, |f.bytes|, len);
    InsertBlockwise(bs, f.alloc, off, len);
    InsertHoles(f, off, len);
  }

  lemma InsertHoles(f: File, off: nat, len: nat)
    requires |f.alloc| >= |f.bytes| >= off && HolesAreZero(f)
    ensures HolesAreZero(File(f.bytes[..off] + Zeros(len) + f.bytes[off..], f.alloc[..off] + Flags(len, false) + f.alloc[off..]))
  {
  }

  lemma CollapseKeeps(bs: BlockSize, f: File, off: nat, len: nat)
    requires Valid(bs, f) && MayCollapse(bs, f, off, len)
    ensures Valid(bs, Collapse(bs, f, off, len))
  {
    hide Down, Up;
    SamePlace(bs, |f.bytes| - len, len);
    CollapseBlockwise(bs, f.alloc, off, len);
    CollapseHoles(f, off, len);
  }

  lemma CollapseHoles(f: File, off: nat, len: nat)
    requires |f.alloc| >= |f.bytes| >= off + len && HolesAreZero(f)
    ensures HolesAreZero(File(f.bytes[..off] + f.bytes[off + len..], f.alloc[..off] + f.alloc[off + len..]))
  {
  }

  // ---- what each operation does, byte by byte and block by block ----

  /** The block of byte i has a byte in the range. */
  ghost predicate Meets(bs: BlockSize, i: nat, off: nat, len: nat) {
    exists x: nat :: off <= x < off + len && Down(bs, x) == Down(bs, i)
  }

  /** The block of byte i lies in the range as a whole. */
  ghost predicate WhollyIn(bs: BlockSize, i: nat, off: nat, len: nat) {
    forall x: nat :: Down(bs, x) == Down(bs, i) ==> off <= x < off + len
  }

  lemma MeetsExactly(bs: BlockSize, i: nat, off: nat, len: nat)
    requires len > 0
    ensures Meets(bs, i, off, len) <==> Down(bs, off) <= i < Up(bs, off + len)
  {
    hide Aligned, Down, Up;
    RoundedIsAligned(bs, off);
    RoundedIsAligned(bs, off + len);
    RoundedIsAligned(bs, i);
    var d := Down(bs, i);
    StaysBehind(bs, Down(bs, off), i);
    StaysBehind(bs, Up(bs, off + len), i);
    if Meets(bs, i, off, len) {
      var x: nat :| off <= x < off + len && Down(bs, x) == d;
      StaysBehind(bs, Down(bs, off), x);
      StaysBehind(bs, Up(bs, off + len), x);
    }
    if Down(bs, off) <= i < Up(bs, off + len) {
      if d < off {
        SameBlock(bs, i, off);
        assert Down(bs, off) == d;
      } else {
        Boundary(bs, d, d);
        LastBlockMet(bs, d, off + len);
      }
    }
  }

  /** Between the boundary below off and off itself there is no other boundary. */
  lemma SameBlock(bs: BlockSize, i: nat, off: nat)
    requires Down(bs, off) <= i && Down(bs, i) < off
    ensures Down(bs, off) == Down(bs, i)
  {
    hide Aligned, Down, Up;
    RoundedIsAligned(bs, off);
    RoundedIsAligned(bs, i);
    StaysBehind(bs, Down(bs, off), i);
    StaysBehind(bs, Down(bs, i), off);
  }

  /** A block that begins below the end of a range, rounded up, begins below the end. */
  lemma LastBlockMet(bs: BlockSize, d: nat, end: nat)
    requires Aligned(bs, d) && d < Up(bs, end)
    ensures d < end
  {
    hide Aligned, Down, Up;
    if d >= end {
      UpGrows(bs, end, d);
      Boundary(bs, d, d);
    }
  }

  lemma InsideExactly(bs: BlockSize, i: nat, off: nat, len: nat)
    ensures WhollyIn(bs, i, off, len) <==> Up(bs, off) <= i < Down(bs, off + len)
  {
    hide Aligned, Down, Up;
    RoundedIsAligned(bs, off);
    RoundedIsAligned(bs, off + len);
    RoundedIsAligned(bs, i);
    var d := Down(bs, i);
    Boundary(bs, d, d);
    Boundary(bs, d, d + bs - 1);
    StaysBehind(bs, Up(bs, off), i);
    StaysBehind(bs, Down(bs, off + len), i);
    if WhollyIn(bs, i, off, len) {
      UpGrows(bs, off, d);
      EndsBy(bs, d, off + len);
    }
    if Up(bs, off) <= i < Down(bs, off + len) {
      forall x: nat | Down(bs, x) == d
        ensures off <= x < off + len
      {
        StaysBehind(bs, Down(bs, off + len), x);
      }
    }
  }

  /** A block whose last byte is below the end of a range lies below the end rounded down. */
  lemma EndsBy(bs: BlockSize, d: nat, end: nat)
    requires Aligned(bs, d) && d + bs <= end
    ensures d + bs <= Down(bs, end)
  {
    hide Aligned, Down, Up;
    RemainderOfItself(bs);
    AlignedSums(bs, d, bs);
    StaysBehind(bs, d + bs, end);
  }

  lemma RemainderOfItself(bs: BlockSize)
    ensures Aligned(bs, bs)
  {
    RemainderIs(bs, bs, 1, 0);
  }

  function Longer(a: nat, b: nat): (m: nat)
    ensures m >= a && m >= b && (m == a || m == b)
  {
    if a > b then a else b
  }

  /** Preallocation keeps every byte, adds zeros, and allocates exactly the blocks the range meets. */
  lemma AllocateExactly(bs: BlockSize, f: File, off: nat, len: nat)
    requires Valid(bs, f) && len > 0
    ensures var a := Allocate(bs, f, off, len);
      && |a.bytes| == Longer(|f.bytes|, off + len) && |a.alloc| == Up(bs, |a.bytes|)
      && (forall i :: 0 <= i < |a.bytes| ==> a.bytes[i] == if i < |f.bytes| then f.bytes[i] else 0)
      && (forall i :: 0 <= i < |a.alloc| ==> (a.alloc[i] <==> (i < |f.alloc| && f.alloc[i]) || Meets(bs, i, off, len)))
  {
    hide Aligned, Down, Up;
    AllocateKeeps(bs, f, off, len);
    forall i: nat
      ensures Meets(bs, i, off, len) <==> Down(bs, off) <= i < Up(bs, off + len)
    {
      MeetsExactly(bs, i, off, len);
    }
  }

  /** A punch, aligned or not, zeroes its bytes and frees exactly the blocks inside it, on any file. */
  lemma PunchBytes(bs: BlockSize, f: File, off: nat, len: nat)
    ensures var p := Punch(bs, f, off, len);
      && |p.bytes| == |f.bytes| && |p.alloc| == |f.alloc|
      && (forall i :: 0 <= i < |f.bytes| ==> p.bytes[i] == if off <= i < off + len then 0 else f.bytes[i])
      && (forall i :: 0 <= i < |f.alloc| ==> (p.alloc[i] <==> f.alloc[i] && !WhollyIn(bs, i, off, len)))
  {
    forall i: nat
      ensures WhollyIn(bs, i, off, len) <==> Up(bs, off) <= i < Down(bs, off + len)
    {
      InsideExactly(bs, i, off, len);
    }
  }

  /** A write stores exactly its bytes, keeps the others, fills a gap with zeros, and allocates like fallocate. */
  lemma WriteBytes(bs: BlockSize, f: File, off: nat, data: seq<Byte>)
    requires Valid(bs, f) && data != []
    ensures var w := Write(bs, f, off, data);
      && |w.bytes| == Longer(|f.bytes|, off + |data|) && w.alloc == Allocate(bs, f, off, |data|).alloc
      && w.bytes[off..off + |data|] == data
      && (forall i :: 0 <= i < |w.bytes| && !(off <= i < off + |data|) ==>
            w.bytes[i] == if i < |f.bytes| then f.bytes[i] else 0)
  {
  }

  /** Zeroing is a write of zeros. */
  lemma ZeroRangeIsWrite(bs: BlockSize, f: File, off: nat, len: nat)
    requires Valid(bs, f) && len > 0
    ensures ZeroRange(bs, f, off, len) == Write(bs, f, off, Zeros(len))
  {
    assert ZeroRange(bs, f, off, len).bytes == Write(bs, f, off, Zeros(len)).bytes;
  }

  /** What is behind a collapsed range moves down by its length, bytes and blocks alike. */
  lemma CollapseBytes(bs: BlockSize, f: File, off: nat, len: nat)
    requires Valid(bs, f) && MayCollapse(bs, f, off, len)
    ensures var c := Collapse(bs, f, off, len);
      && |c.bytes| == |f.bytes| - len && |c.alloc| == |f.alloc| - len
      && (forall i :: 0 <= i < |c.bytes| ==> c.bytes[i] == f.bytes[if i < off then i else i + len])
      && (forall i :: 0 <= i < |c.alloc| ==> c.alloc[i] == f.alloc[if i < off then i else i + len])
  {
  }

  /** What is behind an inserted range moves up by its length; the range is a hole of zeros. */
  lemma InsertBytes(bs: BlockSize, f: File, off: nat, len: nat)
    requires Valid(bs, f) && MayInsert(bs, f, off, len)
    ensures var g := Insert(bs, f, off, len);
      && |g.bytes| == |f.bytes| + len && |g.alloc| == |f.alloc| + len
      && (forall i :: 0 <= i < |f.bytes| ==> g.bytes[if i < off then i else i + len] == f.bytes[i])
      && (forall i :: 0 <= i < |f.alloc| ==> g.alloc[if i < off then i else i + len] == f.alloc[i])
      && (forall i :: off <= i < off + len ==> g.bytes[i] == 0 && !g.alloc[i])
  {
  }

  // ---- how the operations relate ----

  /** Removing a range and making room for it again is punching it. */
  lemma CollapseInsertIsPunch(bs: BlockSize, f: File, off: nat, len: nat)
    requires Valid(bs, f) && MayCollapse(bs, f, off, len)
    ensures MayInsert(bs, Collapse(bs, f, off, len), off, len)
    ensures Insert(bs, Collapse(bs, f, off, len), off, len) == Punch(bs, f, off, len)
  {
    SamePlace(bs, off, len);
    Boundary(bs, off, off);
    Boundary(bs, off + len, off + len);
    SpliceIsFill(f.bytes, off, len, 0, Zeros(len));
    SpliceIsFill(f.alloc, off, len, false, Flags(len, false));
    var c := Collapse(bs, f, off, len);
    assert c.bytes[..off] == f.bytes[..off] && c.bytes[off..] == f.bytes[off + len..];
    assert c.alloc[..off] == f.alloc[..off] && c.alloc[off..] == f.alloc[off + len..];
  }

  lemma SpliceIsFill<T>(s: seq<T>, off: nat, len: nat, x: T, m: seq<T>)
    requires off + len <= |s| && |m| == len && forall i :: 0 <= i < len ==> m[i] == x
    ensures s[..off] + m + s[off + len..] == Fill(s, off, off + len, x)
  {
  }

  /** Making room and removing it again changes nothing. */
  lemma InsertCollapseIsIdentity(bs: BlockSize, f: File, off: nat, len: nat)
    requires Valid(bs, f) && MayInsert(bs, f, off, len)
    ensures MayCollapse(bs, Insert(bs, f, off, len), off, len)
    ensures |Insert(bs, f, off, len).alloc| >= |Insert(bs, f, off, len).bytes|
    ensures Collapse(bs, Insert(bs, f, off, len), off, len) == f
  {
    var i := Insert(bs, f, off, len);
    var c := Collapse(bs, i, off, len);
    assert c.bytes == f.bytes;
    assert c.alloc == f.alloc;
  }

  // ---- allocated size ----

  lemma {:induction false} CountAppend(a: seq<bool>, b: seq<bool>)
    ensures Count(a + b) == Count(a) + Count(b)
  {
    if b == [] {
      assert a + b == a;
    } else {
      var n := |b| - 1;
      assert (a + b)[..|a| + n] == a + b[..n];
      CountAppend(a, b[..n]);
    }
  }

  lemma {:induction false} CountSame(a: seq<bool>, b: bool)
    requires forall i :: 0 <= i < |a| ==> a[i] == b
    ensures Count(a) == if b then |a| else 0
  {
    if a != [] {
      CountSame(a[..|a| - 1], b);
    }
  }

  function Overlap(lo: nat, hi: nat, n: nat): nat {
    var top := if hi < n then hi else n;
    if lo <= top then top - lo else 0
  }

  /** Setting a uniform range moves the count by its length. */
  lemma {:induction false} CountFill(a: seq<bool>, lo: nat, hi: nat, b: bool)
    requires forall i :: lo <= i < hi && i < |a| ==> a[i] != b
    ensures Count(Fill(a, lo, hi, b)) ==
      Count(a) as int + if b then Overlap(lo, hi, |a|) as int else -(Overlap(lo, hi, |a|) as int)
  {
    if a != [] {
      var n := |a| - 1;
      CountFill(a[..n], lo, hi, b);
      assert Fill(a, lo, hi, b)[..n] == Fill(a[..n], lo, hi, b);
    }
  }

  /**
   A punch of allocated space, aligned or not, zeroes its bytes and no others, and frees
   exactly the whole blocks inside it.
   */
  lemma PunchExactly(bs: BlockSize, f: File, off: nat, len: nat)
    requires Valid(bs, f) && off + len <= |f.bytes|
    requires forall i :: off <= i < off + len ==> f.alloc[i]
    ensures var p := Punch(bs, f, off, len);
      && |p.bytes| == |f.bytes|
      && (forall i :: 0 <= i < |f.bytes| ==> p.bytes[i] == if off <= i < off + len then 0 else f.bytes[i])
      && AllocSize(p) == AllocSize(f) - (if Up(bs, off) <= Down(bs, off + len) then Down(bs, off + len) - Up(bs, off) else 0)
  {
    CountFill(f.alloc, Up(bs, off), Down(bs, off + len), false);
  }
}
