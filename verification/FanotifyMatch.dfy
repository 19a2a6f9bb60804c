/**
 Matching fanotify events that the kernel may have merged against the expected sequence:
 the loops of fanotify15.c and fanotify23.c, and exactly when they report no failure.
 A mask is the set of its bits.
 */
module FanotifyMatch {
  type Mask = set<nat>

  /** Everything besides the mask that is compared: fd, pid, file handle and filesystem id. */
  datatype Identity = Identity(fd: int, pid: nat, handleType: int, handle: seq<nat>, fsid: nat)

  datatype Event = Event(mask: Mask, id: Identity)
  datatype Expected = Expected(mask: Mask, id: Identity)

  /** One check.  fanotify15 compares identities too, fanotify23 only masks. */
  predicate Good(strict: bool, ev: Event, x: Expected) {
    ev.mask * x.mask != {} && (strict ==> ev.id == x.id)
  }

  /** The number of failures either loop reports; only fanotify15 reports missing events. */
  function Fails(strict: bool, evs: seq<Event>, xs: seq<Expected>): nat
    decreases |evs| + |xs|
  {
    if evs == [] then (if strict then |xs| else 0)
    else if xs == [] then 1 + Fails(strict, evs[1..], xs)
    else
      var bad := if Good(strict, evs[0], xs[0]) then 0 else 1;
      var rest := evs[0].mask - xs[0].mask;
      if rest == {} then bad + Fails(strict, evs[1..], xs[1..])
      else bad + Fails(strict, [evs[0].(mask := rest)] + evs[1..], xs[1..])
  }

  // ---- what a correct match is ----

  function Union(g: seq<Expected>): Mask {
    if g == [] then {} else Union(g[..|g| - 1]) + g[|g| - 1].mask
  }

  /** A group accounts for an event: every entry finds a bit no earlier one took, and none is left. */
  ghost predicate Accounts(strict: bool, ev: Event, g: seq<Expected>) {
    && g != []
    && (forall j :: 0 <= j < |g| ==> Contributes(strict, ev, g, j))
    && ev.mask <= Union(g)
  }

  ghost predicate Contributes(strict: bool, ev: Event, g: seq<Expected>, j: nat)
    requires j < |g|
  {
    (ev.mask - Union(g[..j])) * g[j].mask != {} && (strict ==> ev.id == g[j].id)
  }

  function Concat(groups: seq<seq<Expected>>): seq<Expected> {
    if groups == [] then [] else groups[0] + Concat(groups[1..])
  }

  /** A monotone assignment of all of xs to the events, one group of neighbours for each. */
  ghost predicate Matching(strict: bool, evs: seq<Event>, xs: seq<Expected>, groups: seq<seq<Expected>>) {
    && |groups| == |evs| && Concat(groups) == xs
    && forall k :: 0 <= k < |evs| ==> Accounts(strict, evs[k], groups[k])
  }

  // ---- a group, entry by entry ----

  lemma {:induction false} UnionFront(x: Expected, g: seq<Expected>)
    ensures Union([x] + g) == x.mask + Union(g)
  {
    if g == [] {
      assert [x] + g == [x];
      assert [x][..0] == [];
    } else {
      var n := |g| - 1;
      UnionFront(x, g[..n]);
      assert ([x] + g)[..n + 1] == [x] + g[..n];
    }
  }

  /** Taking the first entry of a group off leaves a group for what is left of the event. */
  lemma AccountsFront(strict: bool, ev: Event, x: Expected, g: seq<Expected>)
    ensures Accounts(strict, ev, [x] + g) <==>
      && Good(strict, ev, x)
      && (if ev.mask - x.mask == {} then g == [] else Accounts(strict, ev.(mask := ev.mask - x.mask), g))
  {
    var h := [x] + g;
    var rest := ev.(mask := ev.mask - x.mask);
    UnionFront(x, g);
    assert h[..0] == [];
    assert Contributes(strict, ev, h, 0) <==> Good(strict, ev, x);
    forall j | 0 <= j < |g|
      ensures Contributes(strict, ev, h, j + 1) <==> Contributes(strict, rest, g, j)
    {
      UnionFront(x, g[..j]);
      assert h[..j + 1] == [x] + g[..j];
      assert ev.mask - Union(h[..j + 1]) == rest.mask - Union(g[..j]);
    }
    if Accounts(strict, ev, h) {
      assert g != [] ==> Contributes(strict, ev, h, 1);
      forall j | 0 <= j < |g|
        ensures Contributes(strict, rest, g, j)
      {
        assert Contributes(strict, ev, h, j + 1);
      }
    } else if Good(strict, ev, x) && ev.mask - x.mask != {} && Accounts(strict, rest, g) {
      forall j | 0 <= j < |h|
        ensures Contributes(strict, ev, h, j)
      {
        if j > 0 {
          assert Contributes(strict, rest, g, j - 1);
        }
      }
    }
  }

  lemma MatchingCons(strict: bool, ev: Event, g: seq<Expected>, evs: seq<Event>, xs: seq<Expected>,
                     groups: seq<seq<Expected>>)
    requires Accounts(strict, ev, g) && Matching(strict, evs, xs, groups)
    ensures Matching(strict, [ev] + evs, g + xs, [g] + groups)
  {
    assert ([g] + groups)[1..] == groups;
    assert Concat([g] + groups) == g + Concat(groups);
    assert forall k :: 1 <= k <= |evs| ==> ([ev] + evs)[k] == evs[k - 1] && ([g] + groups)[k] == groups[k - 1];
  }

  /** A matching of a non-empty buffer, with its first group taken apart. */
  lemma MatchingFront(strict: bool, evs: seq<Event>, xs: seq<Expected>, groups: seq<seq<Expected>>)
    requires Matching(strict, evs, xs, groups) && evs != []
    ensures Accounts(strict, evs[0], groups[0])
    ensures groups[0] <= xs && Matching(strict, evs[1..], xs[|groups[0]|..], groups[1..])
  {
    assert xs == groups[0] + Concat(groups[1..]);
    assert xs[|groups[0]|..] == Concat(groups[1..]);
    assert forall k :: 0 <= k < |evs| - 1 ==> evs[1..][k] == evs[k + 1] && groups[1..][k] == groups[k + 1];
  }

  // ---- no failure means there is a matching, and conversely ----

  /** A run without failures reads off the matching; fanotify23 may leave entries unused. */
  lemma {:induction false} NoFailureHasMatching(strict: bool, evs: seq<Event>, xs: seq<Expected>)
    returns (n: nat, groups: seq<seq<Expected>>)
    requires Fails(strict, evs, xs) == 0
    ensures n <= |xs| && (strict ==> n == |xs|)
    ensures Matching(strict, evs, xs[..n], groups)
    decreases |evs| + |xs|
  {
    if evs == [] {
      n, groups := 0, [];
    } else {
      var ev, x := evs[0], xs[0];
      var rest := ev.(mask := ev.mask - x.mask);
      var g: seq<Expected>, after: seq<Expected>;
      if rest.mask == {} {
        n, groups := NoFailureHasMatching(strict, evs[1..], xs[1..]);
        g, after := [], xs[1..][..n];
      } else {
        var evs' := [rest] + evs[1..];
        n, groups := NoFailureHasMatching(strict, evs', xs[1..]);
        MatchingFront(strict, evs', xs[1..][..n], groups);
        assert evs'[1..] == evs[1..];
        g, groups, after := groups[0], groups[1..], xs[1..][..n][|groups[0]|..];
      }
      AccountsFront(strict, ev, x, g);
      assert Accounts(strict, ev, [x] + g);
      MatchingCons(strict, ev, [x] + g, evs[1..], after, groups);
      assert [ev] + evs[1..] == evs;
      assert xs[..n + 1] == ([x] + g) + after;
      n, groups := n + 1, [[x] + g] + groups;
    }
  }

  /**
   When the first n entries match the first m events and either side is used up, what is left
   of the other is the number of failures: events for both loops, entries for fanotify15.
   */
  lemma {:induction false} MatchingCounts(strict: bool, evs: seq<Event>, xs: seq<Expected>, m: nat, n: nat,
                                          groups: seq<seq<Expected>>)
    requires m <= |evs| && n <= |xs| && (m == |evs| || n == |xs|)
    requires Matching(strict, evs[..m], xs[..n], groups)
    ensures Fails(strict, evs, xs) == (|evs| - m) + if strict then |xs| - n else 0
    decreases |evs| + |xs|
  {
    if m == 0 {
      assert n == 0;
      LeftoverCounts(strict, evs, xs);
    } else {
      MatchingFront(strict, evs[..m], xs[..n], groups);
      var ev, g, after := evs[0], groups[0], xs[..n][|groups[0]|..];
      var x := g[0];
      assert xs[0] == xs[..n][0] == x;
      assert g == [x] + g[1..];
      AccountsFront(strict, ev, x, g[1..]);
      var rest := ev.(mask := ev.mask - x.mask);
      assert xs[..n] == g + after;
      assert xs[1..][..n - 1] == xs[..n][1..] == g[1..] + after;
      assert evs[1..][..m - 1] == evs[..m][1..];
      if rest.mask == {} {
        assert g[1..] + after == after;
        MatchingCounts(strict, evs[1..], xs[1..], m - 1, n - 1, groups[1..]);
      } else {
        MatchingCons(strict, rest, g[1..], evs[..m][1..], after, groups[1..]);
        var evs' := [rest] + evs[1..];
        assert evs'[..m] == [rest] + evs[..m][1..];
        MatchingCounts(strict, evs', xs[1..], m, n - 1, [g[1..]] + groups[1..]);
      }
    }
  }

  /** With one side empty, what is on the other is what fails. */
  lemma {:induction false} LeftoverCounts(strict: bool, evs: seq<Event>, xs: seq<Expected>)
    requires evs == [] || xs == []
    ensures Fails(strict, evs, xs) == |evs| + if strict then |xs| else 0
    decreases |evs|
  {
    if evs != [] {
      LeftoverCounts(strict, evs[1..], xs);
    }
  }

  lemma MatchingHasNoFailure(strict: bool, evs: seq<Event>, xs: seq<Expected>, n: nat, groups: seq<seq<Expected>>)
    requires n <= |xs| && (strict ==> n == |xs|) && Matching(strict, evs, xs[..n], groups)
    ensures Fails(strict, evs, xs) == 0
  {
    assert evs[..|evs|] == evs;
    MatchingCounts(strict, evs, xs, |evs|, n, groups);
  }

  // ---- the number of failures in every case ----

  /** The buffer once an entry has taken its bits from the first event. */
  function After(evs: seq<Event>, x: Expected): seq<Event> {
    if evs == [] then []
    else if evs[0].mask <= x.mask then evs[1..]
    else [evs[0].(mask := evs[0].mask - x.mask)] + evs[1..]
  }

  /** The buffer once all entries have. */
  function Left(evs: seq<Event>, xs: seq<Expected>): seq<Event>
    decreases |xs|
  {
    if xs == [] then evs else Left(After(evs, xs[0]), xs[1..])
  }

  /** Entry j is reported: it meets an event it does not go with, or, by fanotify15, none at all. */
  ghost predicate Reported(strict: bool, evs: seq<Event>, xs: seq<Expected>, j: nat)
    requires j < |xs|
  {
    var l := Left(evs, xs[..j]);
    if l == [] then strict else l[0].mask !! xs[j].mask || (strict && l[0].id != xs[j].id)
  }

  ghost function ReportedSet(strict: bool, evs: seq<Event>, xs: seq<Expected>): set<nat> {
    set j: nat | j < |xs| && Reported(strict, evs, xs, j)
  }

  /** For any events and entries: one failure for each entry reported and one for each event left over. */
  lemma {:induction false} FailsExactly(strict: bool, evs: seq<Event>, xs: seq<Expected>)
    ensures Fails(strict, evs, xs) == |ReportedSet(strict, evs, xs)| + |Left(evs, xs)|
    decreases |xs|
  {
    if xs == [] {
      LeftoverCounts(strict, evs, xs);
      assert ReportedSet(strict, evs, xs) == {};
    } else {
      var evs', xs' := After(evs, xs[0]), xs[1..];
      FailsExactly(strict, evs', xs');
      FailsAfter(strict, evs, xs);
      ReportedShifts(strict, evs, xs);
      var later := ReportedSet(strict, evs', xs');
      ShiftedSize(later, |xs|);
      assert 0 !in Shifted(later, |xs|);
    }
  }

  lemma FailsAfter(strict: bool, evs: seq<Event>, xs: seq<Expected>)
    requires xs != []
    ensures Fails(strict, evs, xs) ==
      (if Reported(strict, evs, xs, 0) then 1 else 0) + Fails(strict, After(evs, xs[0]), xs[1..])
  {
    assert xs[..0] == [];
    if evs == [] {
      assert After(evs, xs[0]) == [];
    } else {
      MaskFacts(evs[0].mask, xs[0].mask);
    }
  }

  lemma MaskFacts(a: Mask, b: Mask)
    ensures a * b == {} <==> a !! b
    ensures a - b == {} <==> a <= b
  {
    if a * b == {} {
      forall m | m in a
        ensures m !in b
      {
        assert m !in a * b;
      }
    }
    if a - b == {} {
      forall m | m in a
        ensures m in b
      {
        assert m !in a - b;
      }
    }
  }

  /** The numbers of s below n, each moved up by one. */
  function Shifted(s: set<nat>, n: nat): set<nat> {
    set k: nat | k <= n && Follows(s, k)
  }

  predicate Follows(s: set<nat>, k: nat) {
    k > 0 && k - 1 in s
  }

  lemma {:induction false} ShiftedSize(s: set<nat>, n: nat)
    requires forall j :: j in s ==> j < n
    ensures |Shifted(s, n)| == |s|
    decreases |s|
  {
    if s == {} {
      assert Shifted(s, n) == {};
    } else {
      var j :| j in s;
      ShiftedSize(s - {j}, n);
      assert Shifted(s, n) == Shifted(s - {j}, n) + {j + 1};
    }
  }

  lemma ReportedShifts(strict: bool, evs: seq<Event>, xs: seq<Expected>)
    requires xs != []
    ensures ReportedSet(strict, evs, xs) ==
      (if Reported(strict, evs, xs, 0) then {0} else {})
        + Shifted(ReportedSet(strict, After(evs, xs[0]), xs[1..]), |xs|)
  {
    var evs', xs' := After(evs, xs[0]), xs[1..];
    forall j: nat | 0 < j < |xs|
      ensures Reported(strict, evs, xs, j) <==> Reported(strict, evs', xs', j - 1)
    {
      assert xs[..j][1..] == xs'[..j - 1];
    }
  }

  ghost predicate HasMatching(strict: bool, evs: seq<Event>, xs: seq<Expected>) {
    exists groups :: Matching(strict, evs, xs, groups)
  }

  /** fanotify15 reports no failure exactly when all expected entries match all events. */
  lemma StrictExactly(evs: seq<Event>, xs: seq<Expected>)
    ensures Fails(true, evs, xs) == 0 <==> HasMatching(true, evs, xs)
  {
    assert xs[..|xs|] == xs;
    if Fails(true, evs, xs) == 0 {
      var n, groups := NoFailureHasMatching(true, evs, xs);
    }
    if HasMatching(true, evs, xs) {
      var groups :| Matching(true, evs, xs, groups);
      MatchingHasNoFailure(true, evs, xs, |xs|, groups);
    }
  }

  /**
   fanotify23 reports no failure exactly when some first part of the expected entries
   matches all events: entries that never arrive are not noticed.
   */
  lemma LooseExactly(evs: seq<Event>, xs: seq<Expected>)
    ensures Fails(false, evs, xs) == 0 <==> exists n | 0 <= n <= |xs| :: HasMatching(false, evs, xs[..n])
  {
    if Fails(false, evs, xs) == 0 {
      var n, groups := NoFailureHasMatching(false, evs, xs);
      assert HasMatching(false, evs, xs[..n]);
    }
    if exists n | 0 <= n <= |xs| :: HasMatching(false, evs, xs[..n]) {
      var n :| 0 <= n <= |xs| && HasMatching(false, evs, xs[..n]);
      var groups :| Matching(false, evs, xs[..n], groups);
      MatchingHasNoFailure(false, evs, xs, n, groups);
    }
  }

  /** One event of two arrives: fanotify15 reports the other, fanotify23 reports nothing. */
  lemma MissingUnnoticed()
    ensures var id := Identity(-1, 1, 1, [1], 1);
      var evs, xs := [Event({1}, id)], [Expected({1}, id), Expected({2}, id)];
      Fails(true, evs, xs) == 1 && Fails(false, evs, xs) == 0
  {
    var id := Identity(-1, 1, 1, [1], 1);
    var ev, x := Event({1}, id), Expected({1}, id);
    assert 1 in ev.mask * x.mask;
    assert ev.mask - x.mask == {};
  }

  // ---- merging by the kernel ----

  ghost predicate Disjoint(g: seq<Expected>) {
    && (forall j :: 0 <= j < |g| ==> g[j].mask != {})
    && (forall i, j :: 0 <= i < j < |g| ==> g[i].mask !! g[j].mask)
  }

  /** The event a group of expected entries merges into. */
  ghost predicate MergedFrom(ev: Event, g: seq<Expected>) {
    g != [] && Disjoint(g) && ev.mask == Union(g) && forall j :: 0 <= j < |g| ==> ev.id == g[j].id
  }

  lemma {:induction false} UnionMisses(g: seq<Expected>, n: nat, m: Mask)
    requires n <= |g| && forall i :: 0 <= i < n ==> g[i].mask !! m
    ensures Union(g[..n]) !! m
  {
    if n > 0 {
      UnionMisses(g, n - 1, m);
      assert g[..n][..n - 1] == g[..n - 1];
    }
  }

  /** The bits of a group are those of its entries. */
  lemma {:induction false} UnionExactly(g: seq<Expected>, b: nat)
    ensures b in Union(g) <==> exists j :: 0 <= j < |g| && b in g[j].mask
  {
    if g != [] {
      UnionExactly(g[..|g| - 1], b);
      assert g[|g| - 1].mask <= Union(g);
    }
  }

  lemma {:induction false} UnionHolds(g: seq<Expected>, j: nat)
    requires j < |g|
    ensures g[j].mask <= Union(g)
  {
    if j < |g| - 1 {
      UnionHolds(g[..|g| - 1], j);
    }
  }

  lemma MergedIsAccounted(strict: bool, ev: Event, g: seq<Expected>)
    requires MergedFrom(ev, g)
    ensures Accounts(strict, ev, g)
  {
    forall j | 0 <= j < |g|
      ensures Contributes(strict, ev, g, j)
    {
      UnionMisses(g, j, g[j].mask);
      UnionHolds(g, j);
      assert (ev.mask - Union(g[..j])) * g[j].mask == g[j].mask;
    }
  }

  /** Any two expected entries with non-empty masks, no bit in common and one identity can merge. */
  lemma TwoMerge(x: Expected, y: Expected)
    requires x.mask != {} && y.mask != {} && x.mask !! y.mask && x.id == y.id
    ensures MergedFrom(Event(x.mask + y.mask, x.id), [x, y])
  {
    var g := [x, y];
    assert g[..1] == [x] && [x][..0] == [];
    assert Union(g) == Union([x]) + y.mask && Union([x]) == Union([]) + x.mask;
  }

  /** However the kernel merged neighbours with disjoint masks, both loops accept the result. */
  lemma AnyMergingPasses(strict: bool, evs: seq<Event>, groups: seq<seq<Expected>>)
    requires |groups| == |evs| && forall k :: 0 <= k < |evs| ==> MergedFrom(evs[k], groups[k])
    ensures Fails(strict, evs, Concat(groups)) == 0
  {
    var xs := Concat(groups);
    forall k | 0 <= k < |evs|
      ensures Accounts(strict, evs[k], groups[k])
    {
      MergedIsAccounted(strict, evs[k], groups[k]);
    }
    assert xs[..|xs|] == xs;
    MatchingHasNoFailure(strict, evs, xs, |xs|, groups);
  }

  // ---- the loops ----

  /** do_test: bits are cleared in the buffer, and an event is left when none remain. */
  method Match15(metadata: array<Event>, eventSet: seq<Expected>) returns (failures: nat)
    modifies metadata
    ensures failures == Fails(true, old(metadata[..]), eventSet)
    ensures failures == |ReportedSet(true, old(metadata[..]), eventSet)| + |Left(old(metadata[..]), eventSet)|
  {
    hide Left, Reported, ReportedSet;
    FailsExactly(true, metadata[..], eventSet);
    failures := 0;
    var i, m := 0, 0;
    var count := |eventSet|;
    while m < metadata.Length
      invariant 0 <= m <= metadata.Length && 0 <= i
      invariant failures + Fails(true, metadata[m..], if i <= count then eventSet[i..] else [])
        == Fails(true, old(metadata[..]), eventSet)
      decreases metadata.Length - m, if i <= count then count - i else 0
    {
      ghost var evs := metadata[m..];
      assert evs[1..] == metadata[m + 1..];
      if i >= count {
        failures := failures + 1;
        metadata[m] := metadata[m].(mask := {});
      } else {
        if !Good(true, metadata[m], eventSet[i]) {
          failures := failures + 1;
        }
        metadata[m] := metadata[m].(mask := metadata[m].mask - eventSet[i].mask);
        assert eventSet[i..][1..] == eventSet[i + 1..];
      }
      assert metadata[m..] == [metadata[m]] + evs[1..];
      i := i + 1;
      if metadata[m].mask == {} {
        assert metadata[m + 1..] == evs[1..];
        m := m + 1;
      }
    }
    while i < count
      invariant failures + (if i < count then count - i else 0) == Fails(true, old(metadata[..]), eventSet)
    {
      failures := failures + 1;
      i := i + 1;
    }
  }

  /** The loop of fanotify23, and the one that reports what it did not get to. */
  method Match23(event: array<Event>, eventSet: seq<Expected>) returns (failures: nat)
    modifies event
    ensures failures == Fails(false, old(event[..]), eventSet)
    ensures failures == |ReportedSet(false, old(event[..]), eventSet)| + |Left(old(event[..]), eventSet)|
  {
    hide Left, Reported, ReportedSet;
    FailsExactly(false, event[..], eventSet);
    failures := 0;
    var testNum, e := 0, 0;
    var tstCount := |eventSet|;
    while e < event.Length && testNum < tstCount
      invariant 0 <= e <= event.Length && 0 <= testNum <= tstCount
      invariant failures + Fails(false, event[e..], eventSet[testNum..]) == Fails(false, old(event[..]), eventSet)
      decreases tstCount - testNum
    {
      ghost var evs := event[e..];
      assert evs[1..] == event[e + 1..];
      if event[e].mask * eventSet[testNum].mask == {} {
        failures := failures + 1;
      }
      event[e] := event[e].(mask := event[e].mask - eventSet[testNum].mask);
      assert event[e..] == [event[e]] + evs[1..];
      assert eventSet[testNum..][1..] == eventSet[testNum + 1..];
      testNum := testNum + 1;
      if event[e].mask == {} {
        assert event[e + 1..] == evs[1..];
        e := e + 1;
      }
    }
    while e < event.Length
      invariant 0 <= e <= event.Length
      invariant e < event.Length ==> testNum == tstCount
      invariant failures + Fails(false, event[e..], eventSet[testNum..]) == Fails(false, old(event[..]), eventSet)
    {
      assert event[e..][1..] == event[e + 1..];
      failures := failures + 1;
      e := e + 1;
    }
  }
}
