/**
 copy_file_range01.c: a copy that may come back short any number of times, the loop that
 repeats it, and the checks on contents and offsets.
 */
module CopyFileRange {
  import opened Options
  import opened Pieces
  import opened Words

  /** A write of b at offset o; a gap behind the old end reads as zeros. */
  function WriteAt(d: seq<Byte>, o: nat, b: seq<Byte>): seq<Byte> {
    if b == [] then d
    else
      var e := if o > |d| then d + Zeros(o - |d|) else d;
      if o + |b| <= |e| then e[..o] + b + e[o + |b|..] else e[..o] + b
  }

  /** Exactly the bytes of the range change, and only a gap is filled. */
  lemma WriteAtBytes(d: seq<Byte>, o: nat, b: seq<Byte>)
    ensures var r := WriteAt(d, o, b);
      && |r| == (if b == [] || o + |b| <= |d| then |d| else o + |b|)
      && forall i :: 0 <= i < |r| ==> r[i] == if o <= i < o + |b| then b[i - o] else if i < |d| then d[i] else 0
  {
  }

  /** Two writes, the second where the first ended, are one. */
  lemma WriteTwice(d: seq<Byte>, o: nat, a: seq<Byte>, b: seq<Byte>)
    ensures WriteAt(WriteAt(d, o, a), o + |a|, b) == WriteAt(d, o, a + b)
  {
    if a == [] {
      assert a + b == b;
    } else if b == [] {
      assert a + b == a;
    } else {
      WriteAtBytes(d, o, a);
      WriteAtBytes(WriteAt(d, o, a), o + |a|, b);
      WriteAtBytes(d, o, a + b);
    }
  }

  /** getc: the byte, or -1 past the end. */
  function Getc(f: seq<Byte>, p: nat): int {
    if p < |f| then f[p] else -1
  }

  /** What check_file_content compares: at least one read from each file. */
  ghost predicate SameReads(f: seq<Byte>, g: seq<Byte>, p: nat, q: nat, len: nat) {
    forall k :: 0 <= k < (if len == 0 then 1 else len) ==> SameAt(f, g, p, q, k)
  }

  ghost predicate SameAt(f: seq<Byte>, g: seq<Byte>, p: nat, q: nat, k: nat) {
    Getc(f, p + k) == Getc(g, q + k)
  }

  /** While both files last, the check compares their bytes. */
  lemma ComparesBytes(f: seq<Byte>, g: seq<Byte>, p: nat, q: nat, len: nat)
    requires len > 0 && p + len <= |f| && q + len <= |g|
    ensures SameReads(f, g, p, q, len) <==> f[p..p + len] == g[q..q + len]
  {
    if SameReads(f, g, p, q, len) {
      var a, b := f[p..p + len], g[q..q + len];
      forall k | 0 <= k < len
        ensures a[k] == b[k]
      {
        assert SameAt(f, g, p, q, k);
      }
    }
    if f[p..p + len] == g[q..q + len] {
      forall k | 0 <= k < len
        ensures SameAt(f, g, p, q, k)
      {
        assert f[p..p + len][k] == g[q..q + len][k];
      }
    }
  }

  /** It fails when only one file has ended within the reads, and passes when both had before. */
  lemma ComparesEnds(f: seq<Byte>, g: seq<Byte>, p: nat, q: nat, len: nat, k: nat)
    requires k < len || (k == 0 && len == 0)
    ensures (p + k < |f|) != (q + k < |g|) ==> !SameReads(f, g, p, q, len)
    ensures p >= |f| && q >= |g| ==> SameReads(f, g, p, q, len)
  {
    if SameReads(f, g, p, q, len) {
      assert SameAt(f, g, p, q, k);
    }
  }

  function Start(off: Option<nat>): nat {
    if off.Some? then off.value else 0
  }

  method CheckFileContent(f: seq<Byte>, g: seq<Byte>, off1: Option<nat>, off2: Option<nat>, len: nat)
    returns (ret: nat)
    ensures ret == if SameReads(f, g, Start(off1), Start(off2), len) then 0 else 1
    ensures var p := if off1.Some? then off1.value else 0;
      var q := if off2.Some? then off2.value else 0;
      len > 0 && p + len <= |f| && q + len <= |g| ==> (ret == 0 <==> f[p..p + len] == g[q..q + len])
  {
    var p, q := Start(off1), Start(off2);
    var ch1, ch2 := Getc(f, p), Getc(g, q);
    var count: nat := 1;
    while count < len && ch1 == ch2
      invariant count >= 1 && (len > 0 ==> count <= len) && (len == 0 ==> count == 1)
      invariant ch1 == Getc(f, p + count - 1) && ch2 == Getc(g, q + count - 1)
      invariant forall k :: 0 <= k < count - 1 ==> SameAt(f, g, p, q, k)
    {
      assert SameAt(f, g, p, q, count - 1);
      ch1, ch2 := Getc(f, p + count), Getc(g, q + count);
      count := count + 1;
    }
    assert SameAt(f, g, p, q, count - 1) <==> ch1 == ch2;
    ret := if ch1 == ch2 then 0 else 1;
    if len > 0 && p + len <= |f| && q + len <= |g| {
      ComparesBytes(f, g, p, q, len);
    }
  }

  /** 1 when an offset is not where a copy of len should have left it. */
  method CheckFileOffset(fdOff: nat, len: nat, before: Option<nat>, after: Option<nat>) returns (ret: nat)
    requires before.Some? <==> after.Some?
    ensures ret == if (if before.Some? then fdOff == 0 && before.value + len == after.value else fdOff == len) then 0 else 1
  {
    ret := 0;
    if before.Some? {
      if fdOff != 0 {
        ret := 1;
      } else if before.value + len != after.value {
        ret := 1;
      }
    } else if fdOff != len {
      ret := 1;
    }
  }

  // ---- how far a short copy gets ----

  /** The sizes a copy of up to `left` bytes from `pos` may come back with. */
  predicate MayReturn(size: nat, pos: nat, left: nat, n: nat) {
    if pos < size && left > 0 then 1 <= n <= left && n <= size - pos else n == 0
  }

  datatype Remaining = Remaining(pos: nat, left: nat)

  ghost predicate Copies(size: nat, r: Remaining, t: Remaining) {
    r.left > 0 && exists n: nat :: MayReturn(size, r.pos, r.left, n) && t == Remaining(r.pos + n, r.left - n)
  }

  ghost predicate IsLoop(size: nat, run: seq<Remaining>) {
    |run| > 0 && forall i :: 0 < i < |run| ==> Copies(size, run[i - 1], run[i])
  }

  /** With enough source every pass makes progress, so at most `left` passes are made. */
  lemma {:induction false} LoopEnds(size: nat, run: seq<Remaining>, i: nat)
    requires IsLoop(size, run) && i < |run| && run[0].pos + run[0].left <= size
    ensures run[i].pos + run[i].left == run[0].pos + run[0].left
    ensures run[i].left + i <= run[0].left
  {
    if i > 0 {
      LoopEnds(size, run, i - 1);
      assert Copies(size, run[i - 1], run[i]);
    }
  }

  /** Without enough source no number of passes brings the remainder to zero. */
  lemma {:induction false} LoopStalls(size: nat, run: seq<Remaining>, i: nat)
    requires IsLoop(size, run) && i < |run|
    requires run[0].left > 0 && run[0].pos + run[0].left > size
    ensures run[i].left > 0 && run[i].pos + run[i].left > size
  {
    if i > 0 {
      LoopStalls(size, run, i - 1);
      assert Copies(size, run[i - 1], run[i]);
    }
  }

  /** Pass i of the run copies sizes[i] bytes. */
  ghost predicate Takes(run: seq<Remaining>, sizes: seq<nat>) {
    |run| == |sizes| + 1 && forall i :: 0 <= i < |sizes| ==> Took(run[i], sizes[i], run[i + 1])
  }

  predicate Took(r: Remaining, n: nat, t: Remaining) {
    t.pos == r.pos + n && r.left == t.left + n
  }

  /** No way of coming back short is left out: any positive sizes that fit make a run of the loop. */
  lemma {:induction false} EveryShortRun(size: nat, r: Remaining, sizes: seq<nat>) returns (run: seq<Remaining>)
    requires forall i :: 0 <= i < |sizes| ==> sizes[i] > 0
    requires Total(sizes) <= r.left && r.pos + Total(sizes) <= size
    ensures IsLoop(size, run) && Takes(run, sizes) && run[0] == r
    ensures run[|sizes|] == Remaining(r.pos + Total(sizes), r.left - Total(sizes))
    decreases |sizes|
  {
    hide IsLoop, Takes, Copies;
    if sizes == [] {
      run := [r];
      RunOfOne(size, r);
    } else {
      var n := |sizes| - 1;
      var rest := EveryShortRun(size, r, sizes[..n]);
      run := OneMorePass(size, rest, sizes);
    }
  }

  lemma RunOfOne(size: nat, r: Remaining)
    ensures IsLoop(size, [r]) && Takes([r], [])
  {
  }

  lemma OneMorePass(size: nat, rest: seq<Remaining>, sizes: seq<nat>) returns (run: seq<Remaining>)
    requires sizes != [] && IsLoop(size, rest) && Takes(rest, sizes[..|sizes| - 1])
    requires var n := |sizes| - 1; 0 < sizes[n] <= rest[n].left && rest[n].pos + sizes[n] <= size
    ensures IsLoop(size, run) && Takes(run, sizes) && run[0] == rest[0]
    ensures var n := |sizes| - 1; run[n + 1] == Remaining(rest[n].pos + sizes[n], rest[n].left - sizes[n])
  {
    var n := |sizes| - 1;
    var t := Remaining(rest[n].pos + sizes[n], rest[n].left - sizes[n]);
    assert MayReturn(size, rest[n].pos, rest[n].left, sizes[n]);
    assert Copies(size, rest[n], t);
    run := rest + [t];
  }

  /** And nothing else is: a copy is never empty while there is source, nor goes past it. */
  lemma CopiesBounds(size: nat, r: Remaining, t: Remaining)
    requires Copies(size, r, t)
    ensures r.pos <= t.pos && t.pos - r.pos == r.left - t.left
    ensures t.pos > size ==> t == r
    ensures t == r <==> r.pos >= size
  {
  }

  ghost predicate Completes(size: nat, r: Remaining, run: seq<Remaining>) {
    IsLoop(size, run) && run[0] == r && run[|run| - 1].left == 0
  }

  /** The loop can end exactly when the source holds all the bytes asked for, and then it must. */
  lemma LoopEndsIff(size: nat, r: Remaining)
    ensures (exists run: seq<Remaining> :: Completes(size, r, run)) <==> r.left == 0 || r.pos + r.left <= size
  {
    if r.left == 0 {
      assert Completes(size, r, [r]);
    } else if r.pos + r.left <= size {
      var run := [r, Remaining(r.pos + r.left, 0)];
      assert MayReturn(size, r.pos, r.left, r.left);
      assert Copies(size, run[0], run[1]);
      assert Completes(size, r, run);
    } else {
      forall run: seq<Remaining> | IsLoop(size, run) && run[0] == r
        ensures run[|run| - 1].left > 0
      {
        LoopStalls(size, run, |run| - 1);
      }
    }
  }

  // ---- the two open files ----

  class Files {
    const src: seq<Byte>
    var dst: seq<Byte>
    var fdIn: nat
    var fdOut: nat

    /** Both files freshly opened, the destination truncated. */
    constructor (src: seq<Byte>)
      ensures this.src == src && dst == [] && fdIn == 0 && fdOut == 0
    {
      this.src, this.dst, this.fdIn, this.fdOut := src, [], 0, 0;
    }

    /** The system call: an offset given is advanced and the descriptor's is not, and conversely. */
    method SysCopyFileRange(offIn: Option<nat>, offOut: Option<nat>, len: nat)
      returns (ret: nat, newIn: Option<nat>, newOut: Option<nat>)
      modifies this
      ensures var i := Pos(offIn, old(fdIn)); var o := Pos(offOut, old(fdOut));
        && MayReturn(|src|, i, len, ret)
        && (i + ret <= |src| || ret == 0)
        && dst == WriteAt(old(dst), o, Part(src, i, ret))
        && newIn == Bump(offIn, ret) && fdIn == old(fdIn) + (if offIn.Some? then 0 else ret)
        && newOut == Bump(offOut, ret) && fdOut == old(fdOut) + (if offOut.Some? then 0 else ret)
    {
      var i, o := Pos(offIn, fdIn), Pos(offOut, fdOut);
      assert MayReturn(|src|, i, len, if i < |src| && len > 0 then 1 else 0);
      ret :| MayReturn(|src|, i, len, ret);
      dst := WriteAt(dst, o, Part(src, i, ret));
      newIn, newOut := Bump(offIn, ret), Bump(offOut, ret);
      if offIn.None? {
        fdIn := fdIn + ret;
      }
      if offOut.None? {
        fdOut := fdOut + ret;
      }
    }

    /** n bytes have arrived and every position has moved by n. */
    ghost predicate Copied(d: seq<Byte>, offIn: Option<nat>, offOut: Option<nat>,
                           newIn: Option<nat>, newOut: Option<nat>, n: nat)
      reads this
    {
      && (n == 0 || Start(offIn) + n <= |src|)
      && dst == WriteAt(d, Start(offOut), Part(src, Start(offIn), n))
      && newIn == Bump(offIn, n) && fdIn == (if offIn.Some? then 0 else n)
      && newOut == Bump(offOut, n) && fdOut == (if offOut.Some? then 0 else n)
    }

    /** One call of the loop, after n bytes. */
    method CopyMore(ghost d: seq<Byte>, ghost offIn: Option<nat>, ghost offOut: Option<nat>,
                    nowIn: Option<nat>, nowOut: Option<nat>, ghost n: nat, toCopy: nat)
      returns (ret: nat, newIn: Option<nat>, newOut: Option<nat>)
      requires Copied(d, offIn, offOut, nowIn, nowOut, n)
      requires n + toCopy == 0 || Start(offIn) + n + toCopy <= |src|
      modifies this
      ensures ret <= toCopy && (toCopy > 0 ==> ret > 0)
      ensures Copied(d, offIn, offOut, newIn, newOut, n + ret)
    {
      hide WriteAt, Part;
      ret, newIn, newOut := SysCopyFileRange(nowIn, nowOut, toCopy);
      Extended(d, Start(offOut), src, Start(offIn), n, ret);
    }

    /** The do-while loop: one call, then more while bytes remain. */
    method CopyAll(len: nat, offIn: Option<nat>, offOut: Option<nat>) returns (newIn: Option<nat>, newOut: Option<nat>)
      requires fdIn == 0 && fdOut == 0
      requires len == 0 || Start(offIn) + len <= |src|
      modifies this
      ensures Copied(old(dst), offIn, offOut, newIn, newOut, len)
    {
      hide WriteAt, Part;
      NothingYet(dst, Start(offOut), src, Start(offIn));
      var toCopy: nat := len;
      newIn, newOut := offIn, offOut;
      var again := true;
      while again
        invariant toCopy <= len && (!again ==> toCopy == 0)
        invariant Copied(old(dst), offIn, offOut, newIn, newOut, len - toCopy)
        decreases toCopy, again
      {
        var ret;
        ret, newIn, newOut := CopyMore(old(dst), offIn, offOut, newIn, newOut, len - toCopy, toCopy);
        toCopy := toCopy - ret;
        again := toCopy > 0;
      }
    }

    /**
     Fails only for an empty copy whose first bytes happen to differ.  Otherwise, however
     short the copies come back, exactly len bytes arrive, nothing else changes, and each
     side has moved either its offset argument or its descriptor offset by len.
     */
    method TestOne(len: nat, offIn: Option<nat>, offOut: Option<nat>) returns (failed: bool)
      requires fdIn == 0 && fdOut == 0
      requires len == 0 || Start(offIn) + len <= |src|
      modifies this
      ensures dst == WriteAt(old(dst), Start(offOut), Part(src, Start(offIn), len))
      ensures len > 0 ==> var i := if offIn.Some? then offIn.value else 0;
        var o := if offOut.Some? then offOut.value else 0;
        && o + len <= |dst| && dst[o..o + len] == src[i..i + len]
        && (forall k :: 0 <= k < |dst| && !(o <= k < o + len) ==> dst[k] == if k < |old(dst)| then old(dst)[k] else 0)
      ensures fdIn == if offIn.Some? then 0 else len
      ensures fdOut == if offOut.Some? then 0 else len
      ensures failed <==> len == 0 && Getc(src, Start(offIn)) != Getc(dst, Start(offOut))
    {
      var newIn, newOut := CopyAll(len, offIn, offOut);
      ContentArrived(src, old(dst), Start(offIn), Start(offOut), len);
      WriteAtBytes(old(dst), Start(offOut), Part(src, Start(offIn), len));
      var ret := CheckFileContent(src, dst, offIn, offOut, len);
      failed := ret != 0;
      if !failed {
        var inBad := CheckFileOffset(fdIn, len, offIn, newIn);
        var outBad := CheckFileOffset(fdOut, len, offOut, newOut);
        failed := inBad != 0 || outBad != 0;
      }
    }
  }

  lemma ContentArrived(src: seq<Byte>, d: seq<Byte>, i: nat, o: nat, len: nat)
    requires len == 0 || i + len <= |src|
    ensures var dst := WriteAt(d, o, Part(src, i, len));
      SameReads(src, dst, i, o, len) <==> len > 0 || Getc(src, i) == Getc(dst, o)
  {
    var dst := WriteAt(d, o, Part(src, i, len));
    WriteAtBytes(d, o, Part(src, i, len));
    if len == 0 {
      assert SameAt(src, dst, i, o, 0) <==> Getc(src, i) == Getc(dst, o);
    } else {
      forall k | 0 <= k < len
        ensures SameAt(src, dst, i, o, k)
      {
        assert dst[o + k] == Part(src, i, len)[k];
      }
    }
  }

  function Pos(off: Option<nat>, fd: nat): nat {
    if off.Some? then off.value else fd
  }

  function Bump(off: Option<nat>, n: nat): Option<nat> {
    if off.Some? then Some(off.value + n) else None
  }

  /** Up to n bytes from position i. */
  function Part(s: seq<Byte>, i: nat, n: nat): (r: seq<Byte>)
    ensures i + n <= |s| ==> |r| == n
  {
    if n == 0 then [] else if i + n <= |s| then s[i..i + n] else if i < |s| then s[i..] else []
  }

  lemma Joined(s: seq<Byte>, i: nat, m: nat, n: nat)
    requires m + n == 0 || i + m + n <= |s|
    ensures Part(s, i, m) + Part(s, i + m, n) == Part(s, i, m + n)
    ensures |Part(s, i, m)| == m
  {
  }

  lemma NothingYet(d: seq<Byte>, o: nat, s: seq<Byte>, i: nat)
    ensures WriteAt(d, o, Part(s, i, 0)) == d
  {
  }

  /** Writing the next n bytes of s after the first m is writing the first m + n. */
  lemma Extended(d: seq<Byte>, o: nat, s: seq<Byte>, i: nat, m: nat, n: nat)
    requires m + n == 0 || i + m + n <= |s|
    ensures WriteAt(WriteAt(d, o, Part(s, i, m)), o + m, Part(s, i + m, n)) == WriteAt(d, o, Part(s, i, m + n))
  {
    hide WriteAt, Part;
    Joined(s, i, m, n);
    WriteTwice(d, o, Part(s, i, m), Part(s, i + m, n));
  }

  /** An empty copy between a file with a byte in it and a new file fails the content check. */
  method EmptyCopyFails() returns (failed: bool)
    ensures failed
  {
    var files := new Files([65]);
    failed := files.TestOne(0, None, None);
  }

  // ---- the source file and the copy jobs ----

  const CONTENT := "ABCDEFGHIJKLMNOPQRSTUVWXYZ12345\n"

  /** Copy number i of the content. */
  ghost predicate CopyAt(src: seq<Byte>, content: seq<Byte>, i: nat) {
    32 * i + 32 <= |src| && src[32 * i..32 * i + 32] == content
  }

  method WriteSource(content: seq<Byte>, pageSize: nat) returns (src: seq<Byte>)
    requires |content| == |CONTENT|
    ensures |src| == 128 * pageSize
    ensures forall i :: 0 <= i < 4 * pageSize ==> CopyAt(src, content, i)
  {
    assert |CONTENT| == 32;
    src := [];
    for i := 0 to 4 * pageSize
      invariant |src| == 32 * i
      invariant forall k :: 0 <= k < i ==> CopyAt(src, content, k)
    {
      ghost var was := src;
      src := src + content;
      forall k | 0 <= k < i
        ensures CopyAt(src, content, k)
      {
        assert CopyAt(was, content, k);
        assert src[32 * k..32 * k + 32] == was[32 * k..32 * k + 32];
      }
      assert src[32 * i..32 * i + 32] == content;
    }
  }

  /** Every combination of the lengths and offsets is copied without an error. */
  method CopyFileRangeVerify(content: seq<Byte>, pageSize: nat) returns (errcount: nat, numcopies: nat)
    requires |content| == |CONTENT| && pageSize >= 2
    ensures errcount == 0 && numcopies == 4 * 6 * 6
  {
    var src := WriteSource(content, pageSize);
    var lenArr: seq<nat> := [11, pageSize - 1, pageSize, pageSize + 1];
    var offArr: seq<Option<nat>> := [None, Some(0), Some(17), Some(pageSize - 1), Some(pageSize), Some(pageSize + 1)];
    errcount, numcopies := 0, 0;
    for i := 0 to 4
      invariant errcount == 0 && numcopies == i * 36
    {
      for j := 0 to 6
        invariant errcount == 0 && numcopies == i * 36 + j * 6
      {
        for k := 0 to 6
          invariant errcount == 0 && numcopies == i * 36 + j * 6 + k
        {
          assert 0 < lenArr[i] <= pageSize + 11 && Start(offArr[j]) <= pageSize + 17;
          var files := new Files(src);
          var failed := files.TestOne(lenArr[i], offArr[j], offArr[k]);
          errcount := errcount + if failed then 1 else 0;
          numcopies := numcopies + 1;
        }
      }
    }
  }
}
