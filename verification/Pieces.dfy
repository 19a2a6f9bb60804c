/** Byte strings cut into pieces, and the pieces laid end to end. */
module Pieces {
  import opened Words

  type Pieces = seq<seq<Byte>>

  function Total(sizes: seq<nat>): nat {
    if sizes == [] then 0 else Total(sizes[..|sizes| - 1]) + sizes[|sizes| - 1]
  }

  /** The pieces laid end to end. */
  function Flat(p: Pieces): seq<Byte> {
    if p == [] then [] else Flat(p[..|p| - 1]) + p[|p| - 1]
  }

  /** Where piece i begins when the pieces are laid end to end. */
  function Offset(p: Pieces, i: nat): nat
    requires i <= |p|
  {
    |Flat(p[..i])|
  }

  function Sizes(p: Pieces): (s: seq<nat>)
    ensures |s| == |p| && forall i :: 0 <= i < |p| ==> s[i] == |p[i]|
  {
    seq(|p|, i requires 0 <= i < |p| => |p[i]|)
  }

  lemma {:induction false} FlatLength(p: Pieces)
    ensures |Flat(p)| == Total(Sizes(p))
  {
    if p != [] {
      var n := |p| - 1;
      FlatLength(p[..n]);
      assert Sizes(p)[..n] == Sizes(p[..n]);
    }
  }

  lemma {:induction false} FlatAppend(p: Pieces, q: Pieces)
    ensures Flat(p + q) == Flat(p) + Flat(q)
  {
    if q == [] {
      assert p + q == p;
    } else {
      var n := |q| - 1;
      assert (p + q)[..|p| + n] == p + q[..n];
      FlatAppend(p, q[..n]);
    }
  }

  lemma FlatSplit(before: Pieces, r: seq<Byte>, after: Pieces)
    ensures Flat(before + [r]) == Flat(before) + r
    ensures Flat(before + [r] + after) == Flat(before) + r + Flat(after)
  {
    assert (before + [r])[..|before|] == before;
    FlatAppend(before + [r], after);
  }

  /** Piece i sits at its offset. */
  lemma FlatAt(p: Pieces, i: nat)
    requires i < |p|
    ensures var off := Offset(p, i);
      Offset(p, i + 1) == off + |p[i]| <= |Flat(p)| && Flat(p)[off..off + |p[i]|] == p[i]
  {
    assert p == p[..i] + [p[i]] + p[i + 1..];
    FlatSplit(p[..i], p[i], p[i + 1..]);
    assert p[..i + 1] == p[..i] + [p[i]];
  }

  /** Replacing a piece by one of the same length changes nothing else. */
  lemma FlatReplace(p: Pieces, i: nat, r: seq<Byte>)
    requires i < |p| && |r| == |p[i]|
    ensures var off := Offset(p, i);
      off + |r| <= |Flat(p)| && Flat(p[i := r]) == Flat(p)[..off] + r + Flat(p)[off + |r|..]
  {
    assert p == p[..i] + [p[i]] + p[i + 1..];
    assert p[i := r] == p[..i] + [r] + p[i + 1..];
    FlatSplit(p[..i], p[i], p[i + 1..]);
    FlatSplit(p[..i], r, p[i + 1..]);
    Outside(Flat(p[..i]), p[i], Flat(p[i + 1..]));
  }

  lemma Outside(before: seq<Byte>, middle: seq<Byte>, after: seq<Byte>)
    ensures var s := before + middle + after;
      s[..|before|] == before && s[|before| + |middle|..] == after
  {
  }

  lemma SliceOfSlice(s: seq<Byte>, a: nat, b: nat, c: nat, d: nat)
    requires a <= b <= |s| && c <= d <= b - a
    ensures s[a..b][c..d] == s[a + c..a + d]
  {
    assert forall i :: 0 <= i < d - c ==> s[a..b][c..d][i] == s[a..b][c + i] == s[a + c + i];
  }
}
