/**
 The bounded event queue behind fanotify05.c: events beyond the limit leave one overflow
 event, events on the same file may be merged, and the test drains what is left.
 */
module FanotifyQueue {
  import opened Options

  datatype Event = Open(file: nat) | Overflow

  type Queue = seq<Event>

  /** limit None stands for FAN_UNLIMITED_QUEUE. */
  predicate Full(q: Queue, limit: Option<nat>) {
    limit.Some? && |q| >= limit.value
  }

  function Overflowed(q: Queue): Queue {
    if Overflow in q then q else q + [Overflow]
  }

  /**
   What one open of a file may do to the queue: merge into a pending event on that file if
   the kernel chooses to, otherwise overflow when the queue is full, otherwise be appended.
   */
  ghost predicate Notified(q: Queue, limit: Option<nat>, file: nat, q': Queue) {
    || (Event.Open(file) in q && q' == q)
    || q' == (if Full(q, limit) then Overflowed(q) else q + [Event.Open(file)])
  }

  /** An event is merged only with one of its file, and then only if the kernel likes; otherwise one is added. */
  lemma WhatMayHappen(q: Queue, limit: Option<nat>, file: nat, q': Queue)
    ensures Event.Open(file) in q ==> Notified(q, limit, file, q)
    ensures Notified(q, limit, file, q') ==> q <= q' && |q'| <= |q| + 1
    ensures Notified(q, limit, file, q + [Event.Open(file)]) <==> limit.None? || |q| < limit.value
    ensures Notified(q, limit, file, q + [Overflow]) <==> Overflow !in q && limit.Some? && |q| >= limit.value
    ensures Notified(q, limit, file, q) <==> Event.Open(file) in q || (Overflow in q && limit.Some? && |q| >= limit.value)
  {
    assert |q + [Overflow]| == |q| + 1;
    assert (q + [Event.Open(file)])[|q|] == Event.Open(file) && (q + [Overflow])[|q|] == Overflow;
  }

  /** A round of opens of the files 0..n-1 in order, one state after each. */
  ghost predicate Round(states: seq<Queue>, limit: Option<nat>, n: nat) {
    |states| == n + 1 && forall i :: 0 <= i < n ==> Notified(states[i], limit, i, states[i + 1])
  }

  function Files(n: nat): (q: Queue)
    ensures |q| == n && forall i :: 0 <= i < n ==> q[i] == Open(i)
  {
    seq(n, i requires i >= 0 => Event.Open(i))
  }

  lemma NotThere(n: nat, file: nat)
    requires file >= n
    ensures Event.Open(file) !in Files(n) && Overflow !in Files(n)
  {
  }

  /** Distinct files never merge, so the first round is the same for every kernel. */
  lemma {:induction false} FirstRound(states: seq<Queue>, limit: Option<nat>, n: nat, i: nat)
    requires Round(states, limit, n) && states[0] == [] && i <= n
    ensures states[i] == if limit.Some? && i > limit.value then Files(limit.value) + [Overflow] else Files(i)
  {
    if i == 0 {
      assert Files(0) == [];
    } else {
      FirstRound(states, limit, n, i - 1);
      assert Notified(states[i - 1], limit, i - 1, states[i]);
      NotThere(i - 1, i - 1);
      if limit.Some? && i - 1 > limit.value {
        NotThere(limit.value, i - 1);
      } else {
        assert Files(i - 1) + [Event.Open(i - 1)] == Files(i);
      }
    }
  }

  /** Once a bounded queue has overflowed, nothing changes it, however events are merged. */
  lemma {:induction false} LaterRound(states: seq<Queue>, m: nat, n: nat, i: nat)
    requires Round(states, Some(m), n) && i <= n
    requires states[0] == Files(m) + [Overflow]
    ensures states[i] == states[0]
  {
    if i > 0 {
      LaterRound(states, m, n, i - 1);
      assert Notified(states[i - 1], Some(m), i - 1, states[i]);
      assert states[0][m] == Overflow;
    }
  }

  /** An unlimited queue only grows, by opens. */
  lemma {:induction false} LaterRoundUnlimited(states: seq<Queue>, n: nat, i: nat)
    requires Round(states, None, n) && i <= n && Overflow !in states[0]
    ensures states[0] <= states[i] && Overflow !in states[i]
  {
    if i > 0 {
      LaterRoundUnlimited(states, n, i - 1);
      assert Notified(states[i - 1], None, i - 1, states[i]);
    }
  }

  /**
   m + 1 different files and then the same files again.  With a limit of m the queue holds
   the files 0..m-1 in order and one overflow event; without a limit it begins with all
   m + 1 files in order and holds no overflow event.
   */
  lemma TwoRounds(first: seq<Queue>, second: seq<Queue>, limit: Option<nat>, m: nat)
    requires limit == Some(m) || limit == None
    requires Round(first, limit, m + 1) && first[0] == []
    requires Round(second, limit, m + 1) && second[0] == first[m + 1]
    ensures limit.Some? ==> second[m + 1] == Files(m) + [Overflow]
    ensures limit.None? ==> Files(m + 1) <= second[m + 1] && Overflow !in second[m + 1]
  {
    FirstRound(first, limit, m + 1, m + 1);
    if limit.Some? {
      LaterRound(second, m, m + 1, m + 1);
    } else {
      NotThere(m + 1, m + 1);
      LaterRoundUnlimited(second, m + 1, m + 1);
    }
  }

  // ---- the test ----

  /** Failures a drain of q reports, starting with event number n. */
  ghost function DrainFails(q: Queue, n: nat, numFiles: nat, gotOverflow: bool, expectOverflow: bool): nat {
    if q == [] then
      if !gotOverflow && expectOverflow then 1 else 0
    else if q[0].Overflow? then
      if gotOverflow then 1
      else (if expectOverflow then 0 else 1) + DrainFails(q[1..], n + 1, numFiles, true, expectOverflow)
    else
      (if n < numFiles && q[0].file != n then 1 else 0) + DrainFails(q[1..], n + 1, numFiles, gotOverflow, expectOverflow)
  }

  /** Opens among the first numFiles events come in the order of their files. */
  ghost predicate InOrder(q: Queue, n: nat, numFiles: nat) {
    forall i :: 0 <= i < |q| && q[i].Open? && n + i < numFiles ==> q[i].file == n + i
  }

  function Overflows(q: Queue): nat {
    if q == [] then 0 else (if q[0].Overflow? then 1 else 0) + Overflows(q[1..])
  }

  /** A drain is accepted exactly when the order is kept and one overflow event comes if expected. */
  lemma {:induction false} DrainAccepts(q: Queue, n: nat, numFiles: nat, gotOverflow: bool, expectOverflow: bool)
    requires gotOverflow ==> expectOverflow
    ensures DrainFails(q, n, numFiles, gotOverflow, expectOverflow) == 0 <==>
      InOrder(q, n, numFiles) && Overflows(q) + (if gotOverflow then 1 else 0) == if expectOverflow then 1 else 0
    decreases q
  {
    if q != [] {
      var rest := q[1..];
      assert InOrder(q, n, numFiles) <==>
        (q[0].Open? && n < numFiles ==> q[0].file == n) && InOrder(rest, n + 1, numFiles) by {
        InOrderFront(q, n, numFiles);
      }
      if !q[0].Overflow? {
        DrainAccepts(rest, n + 1, numFiles, gotOverflow, expectOverflow);
      } else if expectOverflow {
        DrainAccepts(rest, n + 1, numFiles, true, true);
      }
    }
  }

  lemma InOrderFront(q: Queue, n: nat, numFiles: nat)
    requires q != []
    ensures InOrder(q, n, numFiles) <==>
      (q[0].Open? && n < numFiles ==> q[0].file == n) && InOrder(q[1..], n + 1, numFiles)
  {
    var rest := q[1..];
    if InOrder(rest, n + 1, numFiles) && (q[0].Open? && n < numFiles ==> q[0].file == n) {
      forall i | 0 <= i < |q| && q[i].Open? && n + i < numFiles
        ensures q[i].file == n + i
      {
        assert i > 0 ==> q[i] == rest[i - 1];
      }
    }
    if InOrder(q, n, numFiles) {
      assert forall i :: 0 <= i < |rest| ==> rest[i] == q[i + 1];
    }
  }

  lemma {:induction false} OverflowsIn(q: Queue)
    ensures Overflow !in q ==> Overflows(q) == 0 && Overflows(q + [Overflow]) == 1
  {
    if q == [] {
      assert [Overflow][1..] == [];
    } else {
      OverflowsIn(q[1..]);
      assert (q + [Overflow])[1..] == q[1..] + [Overflow];
    }
  }

  /** The events a drain reads: up to and including the second overflow event, or one more if there was one. */
  function Seen(q: Queue, gotOverflow: bool): Queue {
    if q == [] then []
    else if q[0].Overflow? && gotOverflow then [q[0]]
    else [q[0]] + Seen(q[1..], gotOverflow || q[0].Overflow?)
  }

  /** It is the whole queue unless a second overflow event cuts it short. */
  lemma {:induction false} SeenExactly(q: Queue, gotOverflow: bool)
    ensures var r := Seen(q, gotOverflow); var most := if gotOverflow then 1 else 2;
      && r <= q && Overflows(r) <= most
      && (r == q || (Overflows(r) == most && r[|r| - 1].Overflow?))
      && (Overflows(q) < most ==> r == q)
  {
    if q != [] && !(q[0].Overflow? && gotOverflow) {
      SeenExactly(q[1..], gotOverflow || q[0].Overflow?);
      var rest := Seen(q[1..], gotOverflow || q[0].Overflow?);
      assert ([q[0]] + rest)[1..] == rest;
      assert q == [q[0]] + q[1..];
    } else if q != [] {
      assert [q[0]][1..] == [];
    }
  }

  /** Event number p of a drain that is at event number n with q to come is an open out of order. */
  predicate OutOfPlace(q: Queue, n: nat, p: nat, numFiles: nat) {
    n <= p < n + |q| && p < numFiles && q[p - n].Open? && q[p - n].file != p
  }

  ghost function Misplaced(q: Queue, n: nat, numFiles: nat): set<nat> {
    set p: nat | p < n + |q| && OutOfPlace(q, n, p, numFiles)
  }

  function Distance(a: int, b: int): nat {
    if a < b then b - a else a - b
  }

  /** Every open out of order is reported, and so is every overflow event too many or too few. */
  lemma {:induction false} DrainExactly(q: Queue, n: nat, numFiles: nat, gotOverflow: bool, expectOverflow: bool)
    ensures var seen := Seen(q, gotOverflow);
      gotOverflow ==>
        DrainFails(q, n, numFiles, true, expectOverflow) == |Misplaced(seen, n, numFiles)| + Overflows(seen)
    ensures var seen := Seen(q, gotOverflow); var expected := if expectOverflow then 1 else 0;
      !gotOverflow ==>
        DrainFails(q, n, numFiles, false, expectOverflow) == |Misplaced(seen, n, numFiles)| + Distance(Overflows(seen), expected)
    decreases q
  {
    var seen := Seen(q, gotOverflow);
    if q == [] {
      assert Misplaced(seen, n, numFiles) == {};
    } else {
      var more := q[0].Overflow? && gotOverflow;
      var rest := if more then [] else Seen(q[1..], gotOverflow || q[0].Overflow?);
      assert seen == [q[0]] + rest && seen[1..] == rest;
      MisplacedFront(seen, n, numFiles);
      if more {
        assert Misplaced(rest, n + 1, numFiles) == {};
      } else {
        DrainExactly(q[1..], n + 1, numFiles, gotOverflow || q[0].Overflow?, expectOverflow);
        SeenExactly(q[1..], gotOverflow || q[0].Overflow?);
      }
    }
  }

  lemma MisplacedFront(q: Queue, n: nat, numFiles: nat)
    requires q != []
    ensures |Misplaced(q, n, numFiles)| == |Misplaced(q[1..], n + 1, numFiles)|
      + if q[0].Open? && n < numFiles && q[0].file != n then 1 else 0
  {
    var all, rest := Misplaced(q, n, numFiles), Misplaced(q[1..], n + 1, numFiles);
    forall p: nat | n < p
      ensures OutOfPlace(q, n, p, numFiles) <==> OutOfPlace(q[1..], n + 1, p, numFiles)
    {
    }
    assert OutOfPlace(q, n, n, numFiles) <==> q[0].Open? && n < numFiles && q[0].file != n;
    assert all == rest + if OutOfPlace(q, n, n, numFiles) then {n} else {};
    assert n !in rest;
  }

  class Group {
    const limit: Option<nat>
    var queue: Queue

    constructor (limit: Option<nat>)
      ensures this.limit == limit && queue == []
    {
      this.limit, this.queue := limit, [];
    }

    /** Merging is the kernel's choice. */
    method Notify(file: nat)
      modifies this
      ensures Notified(old(queue), limit, file, queue)
    {
      var merge: bool := *;
      if !(merge && Event.Open(file) in queue) {
        queue := if Full(queue, limit) then Overflowed(queue) else queue + [Event.Open(file)];
      }
    }

    /** A read of one event; None is EAGAIN. */
    method Read() returns (event: Option<Event>)
      modifies this
      ensures old(queue) == [] ==> event == None && queue == []
      ensures old(queue) != [] ==> event == Some(old(queue)[0]) && queue == old(queue)[1..]
    {
      if queue == [] {
        event := None;
      } else {
        event := Some(queue[0]);
        queue := queue[1..];
      }
    }

    method GenerateEvents(numFiles: nat) returns (ghost states: seq<Queue>)
      modifies this
      ensures Round(states, limit, numFiles) && states[0] == old(queue) && states[numFiles] == queue
    {
      states := [queue];
      var i := 0;
      while i < numFiles
        invariant 0 <= i <= numFiles && |states| == i + 1 && states[0] == old(queue) && states[i] == queue
        invariant forall k :: 0 <= k < i ==> Notified(states[k], limit, k, states[k + 1])
      {
        Notify(i);
        states := states + [queue];
        i := i + 1;
      }
    }

    /** The reading loop: order of the first events, and one overflow event exactly if expected. */
    method Drain(numFiles: nat, expectOverflow: bool) returns (failures: nat, nevents: nat)
      modifies this
      ensures failures == DrainFails(old(queue), 0, numFiles, false, expectOverflow)
      ensures failures == 0 <==> InOrder(old(queue), 0, numFiles) && Overflows(old(queue)) == if expectOverflow then 1 else 0
      ensures var seen := Seen(old(queue), false);
        && nevents == |seen| && seen <= old(queue) && queue == old(queue)[|seen|..]
        && failures == |Misplaced(seen, 0, numFiles)| + Distance(Overflows(seen), if expectOverflow then 1 else 0)
    {
      SeenExactly(queue, false);
      DrainExactly(queue, 0, numFiles, false, expectOverflow);
      DrainAccepts(queue, 0, numFiles, false, expectOverflow);
      failures, nevents := 0, 0;
      var gotOverflow, more := false, true;
      while more
        invariant failures + (if more then DrainFails(queue, nevents, numFiles, gotOverflow, expectOverflow) else 0)
          == DrainFails(old(queue), 0, numFiles, false, expectOverflow)
        invariant nevents <= |old(queue)| && queue == old(queue)[nevents..]
        invariant nevents + (if more then |Seen(queue, gotOverflow)| else 0) == |Seen(old(queue), false)|
        decreases if more then |queue| + 1 else 0
      {
        var event := Read();
        if event.None? {
          if !gotOverflow && expectOverflow {
            failures := failures + 1;
          }
          more := false;
        } else {
          if event.value.Open? && nevents < numFiles && event.value.file != nevents {
            failures := failures + 1;
          }
          nevents := nevents + 1;
          if event.value.Overflow? {
            if gotOverflow {
              failures := failures + 1;
              more := false;
            } else {
              if !expectOverflow {
                failures := failures + 1;
              }
              gotOverflow := true;
            }
          }
        }
      }
    }
  }

  /** For every limit and every merging the test passes, bounded and unbounded. */
  method TestFanotify(maxEvents: nat, unlimited: bool) returns (failures: nat, nevents: nat)
    ensures failures == 0
    ensures !unlimited ==> nevents == maxEvents + 1
  {
    var numFiles := maxEvents + 1;
    var group := new Group(if unlimited then None else Some(maxEvents));
    ghost var first := group.GenerateEvents(numFiles);
    ghost var second := group.GenerateEvents(numFiles);
    TwoRounds(first, second, group.limit, maxEvents);
    ghost var q := group.queue;
    if unlimited {
      forall i | 0 <= i < |q| && q[i].Open? && i < numFiles
        ensures q[i].file == i
      {
        assert q[i] == Files(numFiles)[i];
      }
      OverflowsIn(q);
    } else {
      OverflowsIn(Files(maxEvents));
    }
    SeenExactly(q, false);
    failures, nevents := group.Drain(numFiles, !unlimited);
  }
}
