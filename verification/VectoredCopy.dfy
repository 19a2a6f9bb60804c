/**
 The data path of process_vm_readv03.c: random partitions of a buffer, the vectored copy
 between two different partitions, and the count of wrong bytes.
 */
module VectoredCopy {
  import opened Pieces
  import opened Words

  // ---- create_data_size ----

  /** Whatever the random numbers, each size is taken from what is left and arr sums to the buffer size. */
  method CreateDataSize(arr: array<int>, buffsize: nat, rand: seq<nat>)
    requires arr.Length >= 1 && |rand| == arr.Length - 1
    modifies arr
    ensures forall i :: 0 <= i < arr.Length - 1 ==> Drawn(arr[..], rand, buffsize, i)
    ensures forall i :: 0 <= i < arr.Length ==> arr[i] >= 0
    ensures SumInts(arr[..]) == buffsize
    ensures buffsize > 0 ==> arr[arr.Length - 1] > 0
  {
    var left := buffsize;
    var i := 0;
    while i < arr.Length - 1
      invariant 0 <= i <= arr.Length - 1
      invariant forall k :: 0 <= k < i ==> arr[k] >= 0
      invariant forall k :: 0 <= k < i ==> Drawn(arr[..], rand, buffsize, k)
      invariant 0 <= left && SumInts(arr[..i]) + left == buffsize
      invariant buffsize > 0 ==> left > 0
    {
      ghost var was, before := arr[..], arr[..i];
      arr[i] := rand[i] % (left / 2 + 1);
      left := left - arr[i];
      assert arr[..i + 1][..i] == arr[..i] == arr[..][..i] == before;
      forall k | 0 <= k < i
        ensures Drawn(arr[..], rand, buffsize, k)
      {
        DrawnSame(was, arr[..], rand, buffsize, k);
      }
      i := i + 1;
    }
    ghost var was := arr[..];
    arr[i] := left;
    forall k | 0 <= k < i
      ensures Drawn(arr[..], rand, buffsize, k)
    {
      DrawnSame(was, arr[..], rand, buffsize, k);
    }
    assert arr[..][..i] == arr[..i];
  }

  /** Size i is random number i cut to at most half of what the sizes before it have left. */
  ghost predicate Drawn(s: seq<int>, rand: seq<nat>, buffsize: nat, i: nat)
    requires i < |s| && i < |rand|
  {
    var left := buffsize - SumInts(s[..i]);
    left >= 0 && s[i] == rand[i] % (left / 2 + 1)
  }

  lemma DrawnSame(s: seq<int>, t: seq<int>, rand: seq<nat>, buffsize: nat, i: nat)
    requires i < |s| && i < |t| && i < |rand| && s[..i + 1] == t[..i + 1] && Drawn(s, rand, buffsize, i)
    ensures Drawn(t, rand, buffsize, i)
  {
    assert s[..i] == s[..i + 1][..i] == t[..i + 1][..i] == t[..i];
    assert s[i] == s[..i + 1][i] == t[..i + 1][i] == t[i];
  }

  function SumInts(s: seq<int>): int {
    if s == [] then 0 else SumInts(s[..|s| - 1]) + s[|s| - 1]
  }

  // ---- child_alloc ----

  /** The byte the allocator puts at position k of the whole buffer. */
  ghost predicate Counts(b: seq<Byte>, from: nat) {
    forall k :: 0 <= k < |b| ==> b[k] == (from + k) % 256
  }

  method ChildAlloc(sizes: seq<nat>) returns (dataPtr: Pieces)
    ensures Sizes(dataPtr) == sizes
    ensures Counts(Flat(dataPtr), 0)
  {
    dataPtr := [];
    var count: nat := 0;
    var i := 0;
    while i < |sizes|
      invariant 0 <= i <= |sizes| && |dataPtr| == i
      invariant forall k :: 0 <= k < i ==> |dataPtr[k]| == sizes[k]
      invariant count == |Flat(dataPtr)| && Counts(Flat(dataPtr), 0)
    {
      var piece: seq<Byte> := [];
      var j := 0;
      ghost var start := count;
      while j < sizes[i]
        invariant 0 <= j <= sizes[i] && |piece| == j
        invariant count == start + j && Counts(piece, start)
      {
        piece := piece + [count % 256];
        count := count + 1;
        j := j + 1;
      }
      assert (dataPtr + [piece])[..i] == dataPtr;
      dataPtr := dataPtr + [piece];
      i := i + 1;
    }
  }

  // ---- process_vm_readv ----

  /**
   Walks both lists of pieces with a cursor each and copies the largest run that fits both
   current pieces.  Whatever the two partitions are, the bytes arrive in order.
   */
  method ReadV(local: Pieces, remote: Pieces) returns (result: Pieces, copied: nat)
    ensures Sizes(result) == Sizes(local)
    ensures copied == Min(|Flat(local)|, |Flat(remote)|)
    ensures Flat(result) == Flat(remote)[..copied] + Flat(local)[copied..]
  {
    result, copied := local, 0;
    var li: nat, lj: nat, ri: nat, rj: nat := 0, 0, 0, 0;
    while li < |result| && ri < |remote|
      invariant SameShape(result, local)
      invariant At(result, li, lj, copied) && At(remote, ri, rj, copied)
      invariant |Flat(local)| == |Flat(result)|
      invariant Flat(result) == Flat(remote)[..copied] + Flat(local)[copied..]
      decreases |result| - li + |remote| - ri
    {
      var m;
      result, m := CopyNext(result, remote, local, li, lj, ri, rj, copied);
      copied := copied + m;
      ri, rj := Advance(remote, ri, rj + m, copied);
      li, lj := Advance(result, li, lj + m, copied);
    }
    SameSizes(result, local);
    AtEnd(result, li, lj, copied);
    AtEnd(remote, ri, rj, copied);
  }

  lemma AtEnd(p: Pieces, i: nat, j: nat, c: nat)
    requires At(p, i, j, c)
    ensures i == |p| ==> c == |Flat(p)|
  {
    assert p[..|p|] == p;
  }

  /** Copies the largest run that fits both current pieces; m is zero only at the end of one. */
  method CopyNext(result: Pieces, remote: Pieces, ghost local: Pieces,
                  li: nat, lj: nat, ri: nat, rj: nat, c: nat) returns (r: Pieces, m: nat)
    requires li < |result| && ri < |remote|
    requires At(result, li, lj, c) && At(remote, ri, rj, c)
    requires |Flat(local)| == |Flat(result)| && Flat(result) == Flat(remote)[..c] + Flat(local)[c..]
    ensures SameShape(r, result)
    ensures At(r, li, lj + m, c + m) && At(remote, ri, rj + m, c + m)
    ensures lj + m == |result[li]| || rj + m == |remote[ri]|
    ensures |Flat(local)| == |Flat(r)| && Flat(r) == Flat(remote)[..c + m] + Flat(local)[c + m..]
  {
    m := Min(|result[li]| - lj, |remote[ri]| - rj);
    RunAt(remote, ri, rj, c, m);
    RunAt(result, li, lj, c, m);
    Spliced(Flat(result), Flat(remote), Flat(local), c, m);
    r := CopyRun(result, li, lj, remote[ri][rj..rj + m]);
  }

  /** A cursor at the end of its piece moves to the next one. */
  method Advance(p: Pieces, i: nat, j: nat, ghost c: nat) returns (i': nat, j': nat)
    requires At(p, i, j, c) && i < |p|
    ensures At(p, i', j', c)
    ensures i' == if j == |p[i]| then i + 1 else i
  {
    FlatAt(p, i);
    if j == |p[i]| {
      i', j' := i + 1, 0;
    } else {
      i', j' := i, j;
    }
  }

  /** A cursor at byte j of piece i, c bytes from the start. */
  ghost predicate At(p: Pieces, i: nat, j: nat, c: nat) {
    && i <= |p| && (if i < |p| then j <= |p[i]| else j == 0)
    && c == Offset(p, i) + j <= |Flat(p)|
  }

  /** The next m bytes of the piece under the cursor. */
  lemma RunAt(p: Pieces, i: nat, j: nat, c: nat, m: nat)
    requires At(p, i, j, c) && i < |p| && j + m <= |p[i]|
    ensures c + m <= |Flat(p)| && p[i][j..j + m] == Flat(p)[c..c + m]
  {
    FlatAt(p, i);
    SliceOfSlice(Flat(p), Offset(p, i), Offset(p, i) + |p[i]|, j, j + m);
  }

  ghost predicate SameShape(p: Pieces, q: Pieces) {
    |p| == |q| && forall k :: 0 <= k < |q| ==> |p[k]| == |q[k]|
  }

  lemma SameSizes(p: Pieces, q: Pieces)
    requires SameShape(p, q)
    ensures Sizes(p) == Sizes(q)
  {
  }

  /** Overwrites part of one piece. */
  method CopyRun(p: Pieces, i: nat, j: nat, bytes: seq<Byte>) returns (r: Pieces)
    requires i < |p| && j + |bytes| <= |p[i]|
    ensures SameShape(r, p) && r[..i] == p[..i]
    ensures var at := Offset(p, i) + j;
      at + |bytes| <= |Flat(p)| && Flat(r) == Flat(p)[..at] + bytes + Flat(p)[at + |bytes|..]
  {
    var piece := p[i][..j] + bytes + p[i][j + |bytes|..];
    r := p[i := piece];
    FlatAt(p, i);
    FlatReplace(p, i, piece);
    ghost var off := Offset(p, i);
    Widen(Flat(p), off, p[i], j, bytes);
  }

  lemma Widen(flat: seq<Byte>, off: nat, piece: seq<Byte>, j: nat, bytes: seq<Byte>)
    requires off + |piece| <= |flat| && flat[off..off + |piece|] == piece && j + |bytes| <= |piece|
    ensures flat[..off] + (piece[..j] + bytes + piece[j + |bytes|..]) + flat[off + |piece|..]
         == flat[..off + j] + bytes + flat[off + j + |bytes|..]
  {
  }

  /** Copying the next m bytes extends the copied prefix by m. */
  lemma Spliced(was: seq<Byte>, remote: seq<Byte>, local: seq<Byte>, c: nat, m: nat)
    requires c + m <= |remote| && c + m <= |local|
    requires was == remote[..c] + local[c..]
    ensures was[..c] + remote[c..c + m] + was[c + m..] == remote[..c + m] + local[c + m..]
  {
  }

  // ---- child_read ----

  function Bad(b: seq<Byte>): nat {
    if b == [] then 0
    else Bad(b[..|b| - 1]) + if b[|b| - 1] != (|b| - 1) % 256 then 1 else 0
  }

  ghost function BadPositions(b: seq<Byte>): set<nat> {
    set k: nat | k < |b| && b[k] != k % 256
  }

  /** The running count is the number of wrong positions. */
  lemma {:induction false} BadCountsPositions(b: seq<Byte>)
    ensures Bad(b) == |BadPositions(b)|
    ensures Bad(b) == 0 <==> Counts(b, 0)
  {
    if b != [] {
      var n := |b| - 1;
      BadCountsPositions(b[..n]);
      var shorter := BadPositions(b[..n]);
      if b[n] != n % 256 {
        assert BadPositions(b) == shorter + {n};
      } else {
        assert BadPositions(b) == shorter;
      }
    }
  }

  /** For any bytes at all, the count is the number of positions whose byte is wrong. */
  method CountErrors(local: Pieces) returns (nrError: nat)
    ensures nrError == |BadPositions(Flat(local))|
  {
    var count := 0;
    nrError := 0;
    var i := 0;
    while i < |local|
      invariant 0 <= i <= |local|
      invariant count == |Flat(local[..i])| && nrError == Bad(Flat(local[..i]))
    {
      var j := 0;
      ghost var done := Flat(local[..i]);
      assert done + local[i][..0] == done;
      while j < |local[i]|
        invariant 0 <= j <= |local[i]|
        invariant count == |done| + j && nrError == Bad(done + local[i][..j])
      {
        assert (done + local[i][..j + 1])[..|done| + j] == done + local[i][..j];
        if local[i][j] != count % 256 {
          nrError := nrError + 1;
        }
        count := count + 1;
        j := j + 1;
      }
      assert local[i][..j] == local[i];
      assert local[..i + 1][..i] == local[..i];
      i := i + 1;
    }
    assert local[..i] == local;
    BadCountsPositions(Flat(local));
  }

  // ---- run ----

  lemma {:induction false} SumIsTotal(ints: seq<int>, sizes: seq<nat>)
    requires ints == sizes
    ensures SumInts(ints) == Total(sizes)
  {
    if ints != [] {
      SumIsTotal(ints[..|ints| - 1], sizes[..|sizes| - 1]);
    }
  }

  method SomePartition(n: nat, buffsize: nat) returns (sizes: seq<nat>)
    requires n >= 1
    ensures |sizes| == n && Total(sizes) == buffsize
  {
    var arr := new int[n];
    var rand: seq<nat> :| |rand| == n - 1 by { assert |seq(n - 1, _ => 0 as nat)| == n - 1; }
    CreateDataSize(arr, buffsize, rand);
    sizes := arr[..];
    SumIsTotal(arr[..], sizes);
  }

  /**
   The whole test, for any buffer size, any numbers of pieces, any partitions and whatever
   the freshly allocated local pieces contain: every byte is transferred and none is wrong.
   */
  method Run(bufsize: nat, remoteIovecs: nat, localIovecs: nat) returns (ret: nat, nrError: nat)
    requires remoteIovecs >= 1 && localIovecs >= 1
    ensures ret == bufsize && nrError == 0
  {
    var sizes := SomePartition(remoteIovecs, bufsize);
    var remote := ChildAlloc(sizes);
    FlatLength(remote);
    var localSizes := SomePartition(localIovecs, bufsize);
    var local := Malloc(localSizes);
    FlatLength(local);
    var result;
    result, ret := ReadV(local, remote);
    assert Flat(result) == Flat(remote);
    nrError := CountErrors(result);
    BadCountsPositions(Flat(result));
  }

  /** Pieces of the given sizes with any contents. */
  method Malloc(sizes: seq<nat>) returns (p: Pieces)
    ensures Sizes(p) == sizes
  {
    p := [];
    for i := 0 to |sizes|
      invariant |p| == i && forall k :: 0 <= k < i ==> |p[k]| == sizes[k]
    {
      var piece: seq<Byte> :| |piece| == sizes[i] by { assert |seq(sizes[i], _ => 0 as Byte)| == sizes[i]; }
      p := p + [piece];
    }
  }
}
