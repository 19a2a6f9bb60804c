/**
 The checkpoint hand-shake of process_vm_writev02.c and process_vm_readv03.c: a parent, an
 allocator and an accessor forked in between, interleaved in any order one byte at a time.
 Waking and waiting on the checkpoint is a rendezvous of the two processes involved.
 */
module Handshake {
  import opened Words

  /** Write: the accessor overwrites the allocator's buffer.  Read: it copies it out. */
  datatype Job = Writing | Reading

  datatype Allocator = Fill(i: nat) | Publish | Wake | Wait | Verify(j: nat, err: nat) | Finished(err: nat)
  datatype Parent = AwaitAllocator | Fork | AwaitAccessor | WakeAllocator | Reaped
  datatype Accessor =
    | Absent | Prepare(i: nat) | FetchPointer | Copy(k: nat) | Check(j: nat, err: nat) | Exited(err: nat) | Fault

  /** foo is the allocator's buffer, local the accessor's; published is *data_ptr being set. */
  datatype State = State(
    allocator: Allocator, parent: Parent, accessor: Accessor,
    published: bool, foo: seq<Byte>, local: seq<Byte>)

  const A: Byte := 97
  const W: Byte := 119

  /** What the allocator fills byte i with, and what is there once the accessor is through. */
  function Before(job: Job, i: nat): Byte {
    if job.Writing? then A else i % 256
  }

  function After(job: Job, i: nat): Byte {
    if job.Writing? then W else i % 256
  }

  // ---- the steps ----

  ghost predicate AllocatorStep(job: Job, n: nat, s: State, t: State) {
    match s.allocator
    case Fill(i) =>
      if i < n && i < |s.foo| then t == s.(allocator := Fill(i + 1), foo := s.foo[i := Before(job, i)])
      else t == s.(allocator := Publish)
    case Publish => t == s.(allocator := Wake, published := true)
    case Wake => false
    case Wait => false
    case Verify(j, err) =>
      if job.Writing? && j < n && j < |s.foo| then
        t == s.(allocator := Verify(j + 1, if s.foo[j] != W then err + 1 else err))
      else
        t == s.(allocator := Finished(err))
    case Finished(_) => false
  }

  ghost predicate ParentStep(s: State, t: State) {
    match s.parent
    case AwaitAllocator => false
    case Fork => t == s.(parent := AwaitAccessor, accessor := Prepare(0))
    case AwaitAccessor => (s.accessor.Exited? || s.accessor.Fault?) && t == s.(parent := WakeAllocator)
    case WakeAllocator => false
    case Reaped => false
  }

  ghost predicate AccessorStep(job: Job, n: nat, s: State, t: State) {
    match s.accessor
    case Absent => false
    case Prepare(i) =>
      if job.Writing? && i < n && i < |s.local| then t == s.(accessor := Prepare(i + 1), local := s.local[i := W])
      else t == s.(accessor := FetchPointer)
    case FetchPointer => t == s.(accessor := if s.published then Copy(0) else Fault)
    case Copy(k) =>
      if k < n && k < |s.foo| && k < |s.local| then
        if job.Writing? then t == s.(accessor := Copy(k + 1), foo := s.foo[k := s.local[k]])
        else t == s.(accessor := Copy(k + 1), local := s.local[k := s.foo[k]])
      else
        t == s.(accessor := Check(0, 0))
    case Check(j, err) =>
      if job.Reading? && j < n && j < |s.local| then
        t == s.(accessor := Check(j + 1, if s.local[j] != j % 256 then err + 1 else err))
      else
        t == s.(accessor := Exited(err))
    case Exited(_) => false
    case Fault => false
  }

  /** A waker and a waiter on the checkpoint go on together. */
  ghost predicate Rendezvous(s: State, t: State) {
    || (s.allocator.Wake? && s.parent.AwaitAllocator? && t == s.(allocator := Wait, parent := Fork))
    || (s.parent.WakeAllocator? && s.allocator.Wait? && t == s.(allocator := Verify(0, 0), parent := Reaped))
  }

  ghost predicate Next(job: Job, n: nat, s: State, t: State) {
    AllocatorStep(job, n, s, t) || ParentStep(s, t) || AccessorStep(job, n, s, t) || Rendezvous(s, t)
  }

  ghost predicate Init(n: nat, s: State) {
    && s.allocator == Fill(0) && s.parent == AwaitAllocator && s.accessor == Absent && !s.published
    && |s.foo| == n && |s.local| == n
  }

  // ---- the invariant ----

  ghost predicate Holds(job: Job, bytes: seq<Byte>, lo: nat, hi: nat, after: bool) {
    forall i :: lo <= i < hi && i < |bytes| ==> bytes[i] == if after then After(job, i) else Before(job, i)
  }

  ghost predicate EarlyInv(job: Job, s: State) {
    && s.parent == AwaitAllocator && s.accessor == Absent
    && match s.allocator
       case Fill(i) => !s.published && i <= |s.foo| && Holds(job, s.foo, 0, i, false)
       case Publish => !s.published && Holds(job, s.foo, 0, |s.foo|, false)
       case Wake => s.published && Holds(job, s.foo, 0, |s.foo|, false)
       case _ => false
  }

  /** The accessor's progress while the allocator waits. */
  ghost predicate AccessInv(job: Job, s: State) {
    match s.accessor
    case Absent => Holds(job, s.foo, 0, |s.foo|, false)
    case Prepare(i) =>
      i <= |s.local| && Holds(job, s.foo, 0, |s.foo|, false) && (job.Writing? ==> Holds(job, s.local, 0, i, true))
    case FetchPointer =>
      Holds(job, s.foo, 0, |s.foo|, false) && (job.Writing? ==> Holds(job, s.local, 0, |s.local|, true))
    case Copy(k) =>
      && k <= |s.foo|
      && Holds(job, s.foo, 0, k, true) && Holds(job, s.foo, k, |s.foo|, false)
      && Holds(job, s.local, 0, if job.Writing? then |s.local| else k, true)
    case Check(j, err) =>
      j <= |s.local| && err == 0 && Holds(job, s.foo, 0, |s.foo|, true) && Holds(job, s.local, 0, |s.local|, true)
    case Exited(err) => err == 0 && Holds(job, s.foo, 0, |s.foo|, true) && Holds(job, s.local, 0, |s.local|, true)
    case Fault => false
  }

  ghost predicate MeetInv(job: Job, s: State) {
    && s.allocator == Wait && s.published && AccessInv(job, s)
    && match s.parent
       case Fork => s.accessor.Absent?
       case AwaitAccessor => !s.accessor.Absent?
       case WakeAllocator => s.accessor.Exited?
       case _ => false
  }

  ghost predicate LateInv(job: Job, s: State) {
    && s.parent == Reaped && s.published && s.accessor.Exited? && AccessInv(job, s)
    && match s.allocator
       case Verify(j, err) => j <= |s.foo| && err == 0
       case Finished(err) => err == 0
       case _ => false
  }

  ghost predicate Inv(job: Job, n: nat, s: State) {
    && |s.foo| == n && |s.local| == n
    && (EarlyInv(job, s) || MeetInv(job, s) || LateInv(job, s))
  }

  lemma InvStep(job: Job, n: nat, s: State, t: State)
    requires Inv(job, n, s) && Next(job, n, s, t)
    ensures Inv(job, n, t)
  {
    if AccessorStep(job, n, s, t) && MeetInv(job, s) {
      AccessorKeeps(job, n, s, t);
    } else if AllocatorStep(job, n, s, t) && EarlyInv(job, s) {
    } else if AllocatorStep(job, n, s, t) {
    } else if ParentStep(s, t) {
    } else {
    }
  }

  lemma AccessorKeeps(job: Job, n: nat, s: State, t: State)
    requires |s.foo| == n && |s.local| == n && MeetInv(job, s) && AccessorStep(job, n, s, t)
    ensures |t.foo| == n && |t.local| == n && MeetInv(job, t)
  {
  }

  // ---- what the two checking loops count, whatever the buffers hold ----

  ghost function Differing(bytes: seq<Byte>, n: nat, want: int -> int): set<nat> {
    set i: nat | i < n && i < |bytes| && bytes[i] as int != want(i)
  }

  lemma OneMoreDiffering(bytes: seq<Byte>, n: nat, want: int -> int)
    requires n < |bytes|
    ensures |Differing(bytes, n + 1, want)| == |Differing(bytes, n, want)| + if bytes[n] as int != want(n) then 1 else 0
  {
    var less := Differing(bytes, n, want);
    assert Differing(bytes, n + 1, want) == less + if bytes[n] as int != want(n) then {n} else {};
  }

  /** The allocator's verification of any buffer ends with the number of bytes that are not 'w'. */
  lemma {:induction false} VerifyCounts(n: nat, run: seq<State>, i: nat)
    requires i < |run| && |run[0].foo| == n && run[0].allocator == Verify(0, 0)
    requires forall k :: 0 < k < |run| ==> AllocatorStep(Writing, n, run[k - 1], run[k])
    ensures i <= n + 1 && run[i].foo == run[0].foo
    ensures i <= n ==> run[i].allocator == Verify(i, |Differing(run[0].foo, i, _ => 119)|)
    ensures i == n + 1 ==> run[i].allocator == Finished(|Differing(run[0].foo, n, _ => 119)|)
  {
    if i == 0 {
      assert Differing(run[0].foo, 0, _ => 119) == {};
    } else {
      VerifyCounts(n, run, i - 1);
      assert AllocatorStep(Writing, n, run[i - 1], run[i]);
      if i <= n {
        OneMoreDiffering(run[0].foo, i - 1, _ => 119);
      }
    }
  }

  /** The accessor's check of any copy ends with the number of bytes that differ from their position mod 256. */
  lemma {:induction false} CheckCounts(n: nat, run: seq<State>, i: nat)
    requires i < |run| && |run[0].local| == n && run[0].accessor == Check(0, 0)
    requires forall k :: 0 < k < |run| ==> AccessorStep(Reading, n, run[k - 1], run[k])
    ensures i <= n + 1 && run[i].local == run[0].local
    ensures i <= n ==> run[i].accessor == Check(i, |Differing(run[0].local, i, k => k % 256)|)
    ensures i == n + 1 ==> run[i].accessor == Exited(|Differing(run[0].local, n, k => k % 256)|)
  {
    if i == 0 {
      assert Differing(run[0].local, 0, k => k % 256) == {};
    } else {
      CheckCounts(n, run, i - 1);
      assert AccessorStep(Reading, n, run[i - 1], run[i]);
      if i <= n {
        OneMoreDiffering(run[0].local, i - 1, k => k % 256);
      }
    }
  }

  /** An accessor that found no pointer does nothing more. */
  lemma FaultStops(job: Job, n: nat, s: State, t: State)
    ensures s.accessor.Fault? || s.accessor.Exited? ==> !AccessorStep(job, n, s, t)
    ensures s.accessor.FetchPointer? && AccessorStep(job, n, s, t) ==> (t.accessor.Fault? <==> !s.published)
  {
  }

  // ---- safety, deadlock freedom, termination ----

  /** Bytes are accessed only after the pointer is published and while the allocator waits. */
  lemma AccessIsSafe(job: Job, n: nat, s: State)
    requires Inv(job, n, s)
    ensures s.accessor.Copy? ==> s.published && s.allocator == Wait
    ensures !s.accessor.Fault?
    ensures s.allocator.Verify? ==> Holds(job, s.foo, 0, n, true)
    ensures s.allocator.Finished? ==> s.allocator.err == 0
    ensures s.accessor.Exited? ==> s.accessor.err == 0 && Holds(job, s.local, 0, n, true)
  {
  }

  /** The bytes in plain numbers: 'a' and then 'w' for the write test, the position throughout for the read test. */
  lemma PlainBytes(job: Job, n: nat, s: State, i: nat)
    requires Inv(job, n, s) && i < n
    ensures s.allocator.Wake? ==> s.foo[i] == if job.Writing? then 97 else i % 256
    ensures s.allocator.Finished? ==> s.foo[i] == s.local[i] == if job.Writing? then 119 else i % 256
  {
  }

  ghost predicate AllDone(s: State) {
    s.allocator.Finished? && s.parent.Reaped? && s.accessor.Exited?
  }

  ghost predicate Stuck(job: Job, n: nat, s: State) {
    forall t :: !Next(job, n, s, t)
  }

  lemma DeadlockFree(job: Job, n: nat, s: State)
    requires Inv(job, n, s)
    ensures Stuck(job, n, s) <==> AllDone(s)
  {
    if !AllDone(s) {
      var t := SomeStep(job, n, s);
    }
  }

  lemma SomeStep(job: Job, n: nat, s: State) returns (t: State)
    requires Inv(job, n, s) && !AllDone(s)
    ensures Next(job, n, s, t)
  {
    if EarlyInv(job, s) {
      match s.allocator
      case Fill(i) =>
        t := if i < n then s.(allocator := Fill(i + 1), foo := s.foo[i := Before(job, i)]) else s.(allocator := Publish);
      case Publish => t := s.(allocator := Wake, published := true);
      case Wake => t := s.(allocator := Wait, parent := Fork);
    } else if MeetInv(job, s) {
      match s.parent
      case Fork => t := s.(parent := AwaitAccessor, accessor := Prepare(0));
      case AwaitAccessor => t := SomeAccess(job, n, s);
      case WakeAllocator => t := s.(allocator := Verify(0, 0), parent := Reaped);
    } else {
      match s.allocator
      case Verify(j, err) =>
        t := if job.Writing? && j < n then s.(allocator := Verify(j + 1, if s.foo[j] != W then err + 1 else err))
             else s.(allocator := Finished(err));
    }
  }

  lemma SomeAccess(job: Job, n: nat, s: State) returns (t: State)
    requires Inv(job, n, s) && MeetInv(job, s) && s.parent.AwaitAccessor?
    ensures Next(job, n, s, t)
  {
    match s.accessor
    case Prepare(i) =>
      t := if job.Writing? && i < n then s.(accessor := Prepare(i + 1), local := s.local[i := W])
           else s.(accessor := FetchPointer);
    case FetchPointer => t := s.(accessor := Copy(0));
    case Copy(k) =>
      t := if k >= n then s.(accessor := Check(0, 0))
           else if job.Writing? then s.(accessor := Copy(k + 1), foo := s.foo[k := s.local[k]])
           else s.(accessor := Copy(k + 1), local := s.local[k := s.foo[k]]);
    case Check(j, err) =>
      t := if job.Reading? && j < n then s.(accessor := Check(j + 1, if s.local[j] != j % 256 then err + 1 else err))
           else s.(accessor := Exited(err));
    case Exited(_) => t := s.(parent := WakeAllocator);
  }

  /** How many steps a process still has ahead of it, at most. */
  ghost function Ahead(n: nat, s: State): int {
    var allocator :=
      match s.allocator
      case Fill(i) => 2 * n + 5 - i
      case Publish => n + 4
      case Wake => n + 3
      case Wait => n + 2
      case Verify(j, _) => n + 1 - j
      case Finished(_) => 0;
    var parent :=
      match s.parent
      case AwaitAllocator => 4
      case Fork => 3
      case AwaitAccessor => 2
      case WakeAllocator => 1
      case Reaped => 0;
    var accessor :=
      match s.accessor
      case Absent => 3 * n + 5
      case Prepare(i) => 3 * n + 4 - i
      case FetchPointer => 2 * n + 3
      case Copy(k) => 2 * n + 2 - k
      case Check(j, _) => n + 1 - j
      case Exited(_) => 0
      case Fault => 0;
    allocator + parent + accessor
  }

  lemma AheadShrinks(job: Job, n: nat, s: State, t: State)
    requires Inv(job, n, s) && Next(job, n, s, t)
    ensures 0 <= Ahead(n, t) < Ahead(n, s)
  {
    hide Holds, Before, After;
    InvStep(job, n, s, t);
  }

  ghost predicate IsRun(job: Job, n: nat, run: seq<State>) {
    && |run| > 0 && Init(n, run[0])
    && forall i :: 0 < i < |run| ==> Next(job, n, run[i - 1], run[i])
  }

  lemma InitInv(job: Job, n: nat, s: State)
    requires Init(n, s)
    ensures Inv(job, n, s) && Ahead(n, s) <= 5 * n + 14
  {
  }

  lemma {:induction false} RunKeepsInv(job: Job, n: nat, run: seq<State>, i: nat)
    requires IsRun(job, n, run) && i < |run|
    ensures Inv(job, n, run[i])
    ensures i + Ahead(n, run[i]) <= 5 * n + 14
  {
    hide Inv, Init, Next, Ahead;
    if i == 0 {
      InitInv(job, n, run[0]);
    } else {
      var s, t := run[i - 1], run[i];
      assert Next(job, n, s, t);
      RunKeepsInv(job, n, run, i - 1);
      InvStep(job, n, s, t);
      AheadShrinks(job, n, s, t);
    }
  }

  /**
   Whatever the buffers held at first and however the three processes interleave, the remote
   access falls inside the window, every run is finite, and a run that cannot go on has ended
   with every process done and no wrong byte counted.
   */
  lemma EveryRun(job: Job, n: nat, run: seq<State>)
    requires IsRun(job, n, run)
    ensures var s := run[|run| - 1];
      && (s.accessor.Copy? ==> s.published && s.allocator == Wait)
      && !s.accessor.Fault?
      && |run| <= 5 * n + 15
      && (Stuck(job, n, s) <==> AllDone(s))
      && (AllDone(s) ==> s.allocator.err == 0 && s.accessor.err == 0)
      && (AllDone(s) ==> Holds(job, s.foo, 0, n, true) && Holds(job, s.local, 0, n, true))
  {
    var s := run[|run| - 1];
    RunKeepsInv(job, n, run, |run| - 1);
    AccessIsSafe(job, n, s);
    DeadlockFree(job, n, s);
    AheadNonNegative(job, n, s);
  }

  lemma AheadNonNegative(job: Job, n: nat, s: State)
    requires Inv(job, n, s)
    ensures Ahead(n, s) >= 0
  {
  }
}
