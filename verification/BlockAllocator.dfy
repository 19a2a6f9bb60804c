/**
 fallocate05.c: preallocation on a filesystem that is then filled up.  Blocks are named by
 the offset they start at; the filesystem keeps a count of free ones.
 */
module BlockAllocator {
  import opened SparseFile

  const FALLOCATE_BLOCKS := 256
  const DEALLOCATE_BLOCKS := 64

  /** The blocks under a byte range. */
  function Touched(bs: BlockSize, off: nat, len: nat): set<nat> {
    set x: nat | off <= x < off + len :: Down(bs, x)
  }

  /** They are the blocks that share a byte with the range, also where it begins or ends inside one. */
  lemma TouchedExactly(bs: BlockSize, off: nat, len: nat, b: nat)
    ensures b in Touched(bs, off, len) <==> len > 0 && Aligned(bs, b) && b < off + len && off < b + bs
  {
    hide Aligned, Down;
    if b in Touched(bs, off, len) {
      var x: nat :| off <= x < off + len && Down(bs, x) == b;
      RoundedIsAligned(bs, x);
    }
    if len > 0 && Aligned(bs, b) && b < off + len && off < b + bs {
      var x := if off <= b then b else off;
      Boundary(bs, b, x);
      assert off <= x < off + len && Down(bs, x) == b;
    }
  }

  /** On a full volume a write fits exactly if every block it shares a byte with is owned. */
  lemma FullVolumeFits(v: Volume, n: nat)
    requires v.free == 0
    ensures v.Fits(n) <==>
      forall b: nat :: n > 0 && Aligned(v.bs, b) && b < v.pos + n && v.pos < b + v.bs ==> b in v.owned
  {
    hide Aligned, Down, Touched;
    var lacking := Touched(v.bs, v.pos, n) - v.owned;
    forall b: nat
      ensures b in Touched(v.bs, v.pos, n) <==> n > 0 && Aligned(v.bs, b) && b < v.pos + n && v.pos < b + v.bs
    {
      TouchedExactly(v.bs, v.pos, n, b);
    }
    if v.Fits(n) {
      assert lacking == {};
      forall b: nat | n > 0 && Aligned(v.bs, b) && b < v.pos + n && v.pos < b + v.bs
        ensures b in v.owned
      {
        assert b !in lacking;
      }
    } else {
      assert lacking != {};
      var b :| b in lacking;
    }
  }

  /** The size of n blocks. */
  function Span(bs: BlockSize, n: nat): nat {
    if n == 0 then 0 else Span(bs, n - 1) + bs
  }

  lemma {:induction false} SpanIsProduct(bs: BlockSize, n: nat)
    ensures Span(bs, n) == bs * n == n * bs
  {
    if n > 0 {
      SpanIsProduct(bs, n - 1);
    }
  }

  lemma {:induction false} SpanIsAligned(bs: BlockSize, n: nat)
    ensures Aligned(bs, Span(bs, n))
  {
    RemainderIs(0, bs, 0, 0);
    if n > 0 {
      SpanIsAligned(bs, n - 1);
      RemainderIs(bs, bs, 1, 0);
      AlignedSums(bs, Span(bs, n - 1), bs);
    }
  }

  /** The first n blocks of a file are n blocks. */
  lemma {:induction false} FirstBlocks(bs: BlockSize, n: nat)
    ensures |Touched(bs, 0, Span(bs, n))| == n
  {
    if n == 0 {
      assert Touched(bs, 0, 0) == {};
    } else {
      FirstBlocks(bs, n - 1);
      var m := Span(bs, n - 1);
      SpanIsAligned(bs, n - 1);
      OneBlock(bs, m);
      TouchedSplits(bs, 0, m, bs);
      assert m !in Touched(bs, 0, m);
    }
  }

  lemma OneBlock(bs: BlockSize, m: nat)
    requires Aligned(bs, m)
    ensures Touched(bs, m, bs) == {m}
  {
    forall x: nat | m <= x < m + bs
      ensures Down(bs, x) == m
    {
      Boundary(bs, m, x);
    }
    Boundary(bs, m, m);
    assert m in Touched(bs, m, bs) by {
      assert m <= m < m + bs && Down(bs, m) == m;
    }
  }

  lemma TouchedSplits(bs: BlockSize, off: nat, m: nat, n: nat)
    ensures Touched(bs, off, m + n) == Touched(bs, off, m) + Touched(bs, off + m, n)
  {
    forall x: nat | off <= x < off + m + n
      ensures Down(bs, x) in Touched(bs, off, m) + Touched(bs, off + m, n)
    {
      assert x < off + m || x >= off + m;
    }
  }

  lemma {:induction false} TouchedAtMost(bs: BlockSize, off: nat, len: nat)
    ensures |Touched(bs, off, len)| <= len
  {
    hide Down;
    if len > 0 {
      TouchedAtMost(bs, off, len - 1);
      TouchedSplits(bs, off, len - 1, 1);
      assert Touched(bs, off + len - 1, 1) == {Down(bs, off + len - 1)};
    }
  }

  lemma TakeMore(owned: set<nat>, more: set<nat>)
    ensures |owned + more| == |owned| + |more - owned|
  {
    assert owned + more == owned + (more - owned);
  }

  /** One open file on a filesystem; others counts the blocks of everything else. */
  class Volume {
    const bs: BlockSize
    var owned: set<nat>
    var free: nat
    ghost var others: nat
    var pos: nat

    constructor (bs: BlockSize, free: nat)
      ensures this.bs == bs && this.free == free && owned == {} && others == 0 && pos == 0
    {
      this.bs, this.free, this.owned, this.others, this.pos := bs, free, {}, 0, 0;
    }

    /** The sum that every operation conserves. */
    ghost function Total(): nat
      reads this
    {
      free + |owned| + others
    }

    /** The blocks a range still lacks. */
    function Need(off: nat, len: nat): nat
      reads this
    {
      |Touched(bs, off, len) - owned|
    }

    /** fallocate(fd, 0, off, len): takes what the range lacks; false is ENOSPC. */
    method Fallocate(off: nat, len: nat) returns (ok: bool)
      modifies this`free, this`owned
      ensures ok <==> old(Need(off, len)) <= old(free)
      ensures owned == if ok then old(owned) + Touched(bs, off, len) else old(owned)
      ensures free == if ok then old(free) - old(Need(off, len)) else old(free)
      ensures Total() == old(Total())
    {
      ok := Need(off, len) <= free;
      if ok {
        TakeMore(owned, Touched(bs, off, len));
        free := free - Need(off, len);
        owned := owned + Touched(bs, off, len);
      }
    }

    /** tst_fill_fs: other files take blocks; some filesystems keep a few back. */
    method FillFs()
      modifies this`free, this`others
      ensures free <= old(free) && Total() == old(Total())
    {
      var left: nat :| left <= free;
      others := others + (free - left);
      free := left;
    }

    /** Whether n bytes at the position can be stored. */
    predicate Fits(n: nat)
      reads this
    {
      Need(pos, n) <= free
    }

    /** write: at least a byte if one fits, possibly fewer than asked; -1 if none does. */
    method Write(len: nat) returns (ret: int)
      requires len > 0
      modifies this`free, this`owned, this`pos
      ensures ret == -1 || 1 <= ret <= len
      ensures ret == -1 <==> !old(Fits(1))
      ensures ret == -1 ==> owned == old(owned) && free == old(free) && pos == old(pos)
      ensures ret > 0 ==> pos == old(pos) + ret && owned == old(owned) + Touched(bs, old(pos), ret)
      ensures ret > 0 ==> old(Fits(ret)) && free == old(free) - old(Need(pos, ret))
      ensures Total() == old(Total())
    {
      if !Fits(1) {
        return -1;
      }
      var n: nat := *;
      if n < 1 || n > len || !Fits(n) {
        n := 1;
      }
      var ok := Fallocate(pos, n);
      pos := pos + n;
      ret := n;
    }

    /** FALLOC_FL_PUNCH_HOLE | FALLOC_FL_KEEP_SIZE at offset 0: frees the whole blocks inside. */
    method PunchFront(len: nat)
      modifies this`free, this`owned
      ensures owned == set b | b in old(owned) && b + bs > len
      ensures free == old(free) + |set b | b in old(owned) && b + bs <= len|
      ensures Total() == old(Total())
    {
      var inside := set b | b in owned && b + bs <= len;
      var kept := set b | b in owned && b + bs > len;
      assert owned == inside + kept && inside !! kept;
      free := free + |inside|;
      owned := kept;
    }

    // ---- the run ----

    /** The file owns exactly the blocks of its first m bytes. */
    ghost predicate OwnsFirst(m: nat)
      reads this
    {
      owned == Touched(bs, 0, m)
    }

    /** fallocate of the block at the aligned end of what is owned. */
    method FallocateNext(m: nat) returns (ok: bool)
      requires OwnsFirst(m) && Aligned(bs, m)
      modifies this`free, this`owned
      ensures ok <==> old(free) > 0
      ensures ok ==> free == old(free) - 1 && OwnsFirst(m + bs)
      ensures !ok ==> free == 0 && OwnsFirst(m)
      ensures Total() == old(Total())
    {
      NextBlock(bs, m);
      TouchedSplits(bs, 0, m, bs);
      ok := Fallocate(m, bs);
    }

    /** Extends block by block until the filesystem is full: exactly the free blocks are added. */
    method ExtendUntilFull(bufsize: nat) returns (extsize: nat)
      requires OwnsFirst(bufsize) && Aligned(bs, bufsize)
      modifies this`free, this`owned
      ensures free == 0 && extsize == Span(bs, old(free))
      ensures OwnsFirst(bufsize + extsize) && Aligned(bs, bufsize + extsize)
      ensures Total() == old(Total())
    {
      extsize := 0;
      var ok := true;
      ghost var given := 0;
      while ok
        invariant given <= old(free) && (ok ==> given + free == old(free))
        invariant ok ==> extsize == Span(bs, given) && OwnsFirst(bufsize + extsize)
        invariant !ok ==> given == old(free) && free == 0 && extsize == Span(bs, given) + bs
        invariant !ok ==> OwnsFirst(bufsize + Span(bs, given))
        invariant Total() == old(Total())
        decreases free, ok
      {
        SpanIsAligned(bs, given);
        AlignedSums(bs, bufsize, extsize);
        ok := FallocateNext(bufsize + extsize);
        if ok {
          given := given + 1;
        }
        extsize := extsize + bs;
      }
      extsize := extsize - bs;
      SpanIsAligned(bs, given);
      AlignedSums(bs, bufsize, extsize);
    }

    /** Writes inside owned space: never fails, and the remainder reaches exactly zero. */
    method WriteAll(bufsize: nat, size: nat) returns (failed: bool)
      requires bufsize > 0 && Touched(bs, pos, size) <= owned
      modifies this`free, this`owned, this`pos
      ensures !failed && pos == old(pos) + size
      ensures owned == old(owned) && free == old(free) && Total() == old(Total())
    {
      var tmp: nat := size;
      failed := false;
      while tmp > 0 && !failed
        invariant !failed && tmp <= size && pos == old(pos) + (size - tmp)
        invariant owned == old(owned) && free == old(free) && Total() == old(Total())
        decreases tmp
      {
        var len := if bufsize < tmp then bufsize else tmp;
        Within(bs, old(pos), size, pos, 1);
        Within(bs, old(pos), size, pos, len);
        Covered(owned, Touched(bs, pos, 1));
        ghost var here := pos;
        var ret := Write(len);
        if ret <= 0 {
          failed := true;
        } else {
          Within(bs, old(pos), size, here, ret);
          Covered(owned, Touched(bs, here, ret));
          tmp := tmp - ret;
        }
      }
    }
  }

  lemma NextBlock(bs: BlockSize, m: nat)
    requires Aligned(bs, m)
    ensures Touched(bs, m, bs) - Touched(bs, 0, m) == {m}
  {
    OneBlock(bs, m);
  }

  lemma Within(bs: BlockSize, off: nat, len: nat, off': nat, len': nat)
    requires off <= off' && off' + len' <= off + len
    ensures Touched(bs, off', len') <= Touched(bs, off, len)
  {
  }

  lemma Covered(owned: set<nat>, more: set<nat>)
    requires more <= owned
    ensures |more - owned| == 0 && owned + more == owned
  {
    assert more - owned == {};
  }

  /** The whole blocks inside the first n are those n. */
  lemma InsideFirst(bs: BlockSize, owned: set<nat>, n: nat, m: nat)
    requires n <= m && owned == Touched(bs, 0, Span(bs, m))
    ensures (set b | b in owned && b + bs <= Span(bs, n)) == Touched(bs, 0, Span(bs, n))
  {
    var inside := set b | b in owned && b + bs <= Span(bs, n);
    SpanIsAligned(bs, n);
    SpanGrows(bs, n, m);
    forall b | b in inside
      ensures b in Touched(bs, 0, Span(bs, n))
    {
      var x: nat :| x < Span(bs, m) && Down(bs, x) == b;
      assert x < Span(bs, n);
    }
    forall x: nat | x < Span(bs, n)
      ensures Down(bs, x) in inside
    {
      RoundedIsAligned(bs, x);
      BlockFits(bs, Down(bs, x), Span(bs, n));
    }
  }

  lemma {:induction false} SpanGrows(bs: BlockSize, n: nat, m: nat)
    requires n <= m
    ensures Span(bs, n) <= Span(bs, m)
  {
    if n < m {
      SpanGrows(bs, n, m - 1);
    }
  }

  /** A block that begins below a boundary ends at or below it. */
  lemma BlockFits(bs: BlockSize, b: nat, m: nat)
    requires Aligned(bs, b) && Aligned(bs, m) && b < m
    ensures b + bs <= m
  {
    Boundary(bs, b, m);
    Boundary(bs, m, m);
  }

  /** firstFull: the first write was not short; last: the final write stored something. */
  datatype Report = NoSpace | Report(firstFull: bool, extended: nat, writeFailed: bool, freed: nat, last: bool)

  /**
   On any volume, with any filler and any short writes: preallocation needs 256 free blocks;
   after it no write fails although the filesystem is full, the extension takes exactly the
   blocks that the filler left, and the punched blocks make the last write possible.  The
   position shows what was written: the first write, all of the extension, up to ten bytes.
   */
  method Run(v: Volume, btrfs: bool) returns (r: Report, ghost left: nat, ghost first: nat)
    requires v.owned == {} && v.pos == 0
    modifies v
    ensures r.NoSpace? <==> old(v.free) < FALLOCATE_BLOCKS
    ensures r.Report? ==> !r.writeFailed && r.last
    ensures r.Report? ==> r.extended == left <= old(v.free) - FALLOCATE_BLOCKS
    ensures r.Report? ==> first <= FALLOCATE_BLOCKS * v.bs && (r.firstFull <==> first == FALLOCATE_BLOCKS * v.bs)
    ensures r.Report? ==> first + Span(v.bs, left) < v.pos <= first + Span(v.bs, left) + 10
    ensures r.Report? ==> r.freed == if btrfs then FALLOCATE_BLOCKS + r.extended else DEALLOCATE_BLOCKS
    ensures v.Total() == old(v.Total())
  {
    var bs := v.bs;
    var bufsize: nat := FALLOCATE_BLOCKS * bs;
    SpanIsProduct(bs, FALLOCATE_BLOCKS);
    var ok := Preallocate(v, bufsize);
    left, first := 0, 0;
    if !ok {
      r := NoSpace;
      return;
    }
    v.FillFs();
    left := v.free;
    var firstFull := FirstWrite(v, bufsize);
    first := v.pos;
    SpanIsAligned(bs, FALLOCATE_BLOCKS);
    var extsize := v.ExtendUntilFull(bufsize);
    Within(bs, 0, bufsize + extsize, v.pos, extsize);
    var failed := v.WriteAll(bufsize, extsize);
    SpanSum(bs, FALLOCATE_BLOCKS, left);
    SpanIsProduct(bs, DEALLOCATE_BLOCKS);
    var freed, last;
    if btrfs {
      freed, last := PunchAndWrite(v, bufsize + extsize, FALLOCATE_BLOCKS + left, FALLOCATE_BLOCKS + left);
    } else {
      freed, last := PunchAndWrite(v, DEALLOCATE_BLOCKS * bs, DEALLOCATE_BLOCKS, FALLOCATE_BLOCKS + left);
    }
    SpanInBlocks(bs, left);
    r := Report(firstFull, extsize / bs, failed, freed, last);
  }

  /** The first fallocate of the run. */
  method Preallocate(v: Volume, bufsize: nat) returns (ok: bool)
    requires v.owned == {} && bufsize == Span(v.bs, FALLOCATE_BLOCKS)
    modifies v`free, v`owned
    ensures ok <==> old(v.free) >= FALLOCATE_BLOCKS
    ensures ok ==> v.OwnsFirst(bufsize) && v.free == old(v.free) - FALLOCATE_BLOCKS
    ensures v.Total() == old(v.Total())
  {
    FirstBlocks(v.bs, FALLOCATE_BLOCKS);
    assert Touched(v.bs, 0, bufsize) - {} == Touched(v.bs, 0, bufsize);
    ok := v.Fallocate(0, bufsize);
  }

  /** The first write stays inside the preallocated range, so it cannot fail. */
  method FirstWrite(v: Volume, bufsize: nat) returns (full: bool)
    requires v.OwnsFirst(bufsize) && v.pos == 0 && bufsize > 0
    modifies v`free, v`owned, v`pos
    ensures v.OwnsFirst(bufsize) && v.free == old(v.free) && v.pos <= bufsize && (full <==> v.pos == bufsize)
    ensures v.Total() == old(v.Total())
  {
    Within(v.bs, 0, bufsize, 0, 1);
    Covered(v.owned, Touched(v.bs, 0, 1));
    var ret := v.Write(bufsize);
    Within(v.bs, 0, bufsize, 0, ret);
    Covered(old(v.owned), Touched(v.bs, 0, ret));
    full := ret == bufsize;
  }

  /** Punching the first n of m blocks frees n; then ten more bytes fit at any position. */
  method PunchAndWrite(v: Volume, len: nat, ghost n: nat, ghost m: nat) returns (freed: nat, last: bool)
    requires v.free == 0 && v.OwnsFirst(Span(v.bs, m))
    requires len == Span(v.bs, n) && 10 <= n <= m
    modifies v`free, v`owned, v`pos
    ensures freed == n && last && old(v.pos) < v.pos <= old(v.pos) + 10
    ensures v.Total() == old(v.Total())
  {
    InsideFirst(v.bs, v.owned, n, m);
    FirstBlocks(v.bs, n);
    v.PunchFront(len);
    freed := v.free;
    TouchedAtMost(v.bs, v.pos, 10);
    TouchedAtMost(v.bs, v.pos, 1);
    FewerLacking(Touched(v.bs, v.pos, 10), v.owned);
    FewerLacking(Touched(v.bs, v.pos, 1), v.owned);
    assert v.Fits(10);
    var ret := v.Write(10);
    last := ret != -1;
  }

  lemma FewerLacking(a: set<nat>, b: set<nat>)
    ensures |a - b| <= |a|
  {
    assert a == (a - b) + (a * b);
  }

  lemma {:induction false} SpanSum(bs: BlockSize, m: nat, n: nat)
    ensures Span(bs, m + n) == Span(bs, m) + Span(bs, n)
  {
    if n > 0 {
      SpanSum(bs, m, n - 1);
    }
  }

  lemma SpanInBlocks(bs: BlockSize, n: nat)
    ensures Span(bs, n) / bs == n
  {
    var d := Span(bs, n) / bs;
    SpanIsProduct(bs, n);
    SpanIsAligned(bs, n);
    assert Span(bs, n) == bs * d;
    MulAtLeast(bs, n - d);
    assert bs * (n - d) == bs * n - bs * d == 0;
  }
}
