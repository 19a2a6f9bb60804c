/**
 close_range01.c: a parent and a child that share one descriptor table, and close_range
 with and without a private copy of it first.
 */
module CloseRange {
  import opened FdTable
  import opened Options

  /** A process refers to its descriptor table; after CLONE_FILES two refer to the same one. */
  class Task {
    var files: Table

    constructor (files: Table)
      ensures this.files == files
    {
      this.files := files;
    }
  }

  /** What close_range(from, ~0U, flags) does to a table. */
  function Ranged(slots: Slots, from: nat, cloexec: bool): Slots {
    if cloexec then map fd | fd in slots :: if fd >= from then Desc(slots[fd].file, true) else slots[fd]
    else map fd | fd in slots && fd < from :: slots[fd]
  }

  /** With unshare the caller first gets its own copy, and the table it had is not touched. */
  method DoCloseRange(task: Task, from: nat, cloexec: bool, unshare: bool)
    modifies task, task.files
    ensures task.files.limit == old(task.files.limit)
    ensures task.files.slots == Ranged(old(task.files.slots), from, cloexec)
    ensures if unshare then fresh(task.files) && old(task.files).slots == old(task.files.slots)
            else task.files == old(task.files)
  {
    if unshare {
      task.files := new Table(task.files.slots, task.files.limit);
    }
    task.files.slots := Ranged(task.files.slots, from, cloexec);
  }

  /** Closing takes away the numbers from the bound on; marking takes nothing away and changes no file. */
  lemma RangedExactly(slots: Slots, from: nat, cloexec: bool, fd: nat)
    ensures var r := Ranged(slots, from, cloexec);
      && (fd in r <==> fd in slots && (cloexec || fd < from))
      && (fd in r ==> r[fd].file == slots[fd].file)
      && (fd in r ==> (r[fd].cloexec <==> slots[fd].cloexec || (cloexec && fd >= from)))
  {
  }

  /** The checks count failures; SAFE_FCNTL on a closed descriptor would stop the test. */
  method CheckCloexec(task: Task, fd: nat, expected: bool) returns (failures: nat)
    ensures failures == 0 <==> fd in task.files.slots && task.files.slots[fd].cloexec == expected
    ensures failures <= 1
  {
    failures := if fd in task.files.slots && task.files.slots[fd].cloexec == expected then 0 else 1;
  }

  /** The descriptors from number min on, below end, that are open. */
  ghost function StillOpen(slots: Slots, fd: seq<nat>, min: nat, end: nat): set<nat> {
    set i: nat | min <= i < end && i < |fd| && fd[i] in slots
  }

  lemma OneMoreOpen(slots: Slots, fd: seq<nat>, min: nat, end: nat)
    requires min <= end < |fd|
    ensures |StillOpen(slots, fd, min, end + 1)| == |StillOpen(slots, fd, min, end)| + if fd[end] in slots then 1 else 0
  {
    var before := StillOpen(slots, fd, min, end);
    assert StillOpen(slots, fd, min, end + 1) == before + if fd[end] in slots then {end} else {};
  }

  lemma CountsOpen(slots: Slots, fd: seq<nat>, min: nat)
    requires |fd| == 3 && min < 3
    ensures |StillOpen(slots, fd, min, 3)| == (if min == 0 && fd[0] in slots then 1 else 0)
      + (if min <= 1 && fd[1] in slots then 1 else 0) + (if fd[2] in slots then 1 else 0)
  {
    hide StillOpen;
    NoneOpen(slots, fd, min);
    if min == 0 {
      OneMoreOpen(slots, fd, 0, 0);
    }
    if min <= 1 {
      OneMoreOpen(slots, fd, min, 1);
    }
    OneMoreOpen(slots, fd, min, 2);
  }

  lemma NoneOpen(slots: Slots, fd: seq<nat>, min: nat)
    ensures StillOpen(slots, fd, min, min) == {}
  {
  }

  method CheckClosed(task: Task, fd: seq<nat>, min: nat) returns (failures: nat)
    requires |fd| == 3
    ensures failures == 0 <==> forall i :: min <= i < 3 ==> fd[i] !in task.files.slots
    ensures failures == |StillOpen(task.files.slots, fd, min, 3)|
  {
    failures := 0;
    var i := min;
    while i < 3
      invariant min <= i
      invariant failures == |StillOpen(task.files.slots, fd, min, i)|
      invariant failures == 0 <==> forall k :: min <= k < i && k < 3 ==> fd[k] !in task.files.slots
    {
      OneMoreOpen(task.files.slots, fd, min, i);
      if fd[i] in task.files.slots {
        failures := failures + 1;
      }
      i := i + 1;
    }
    assert StillOpen(task.files.slots, fd, min, i) == StillOpen(task.files.slots, fd, min, 3);
  }

  datatype Report = NotSupported | Broken | Ran(failures: nat)

  const HIGH: nat := 1000
  const MIDDLE: nat := 42

  predicate Plain(n: nat) {
    n == 0 || n == 1
  }

  /** The second of each pair of cases asks for a private table. */
  predicate Private(n: nat) {
    n == 1 || n == 3
  }

  /** The table the test starts a case from: standard descriptors only. */
  ghost predicate OnlyStandard(slots: Slots) {
    slots.Keys == {0, 1, 2}
  }

  lemma ThreeIsLowest(slots: Slots, limit: nat)
    requires OnlyStandard(slots) && limit > 3
    ensures Lowest(slots, 0, limit) == Some(3)
  {
    assert 0 in slots && 1 in slots && 2 in slots && 3 !in slots;
  }

  /** The child's part of case n. */
  method Child(n: nat, task: Task, fd: seq<nat>) returns (failures: nat)
    requires n < 4 && fd == [3, HIGH, MIDDLE] && task.files.limit > HIGH
    requires HIGH in task.files.slots && 3 in task.files.slots && MIDDLE !in task.files.slots
    modifies task, task.files
    ensures failures == 0
    ensures var was := old(task.files.slots);
      old(task.files).slots == match n
        case 0 => Ranged(Dupped(was), 3, false)
        case 1 => Dupped(was)
        case 2 => Dupped(Ranged(was, 3, true))
        case _ => was
    ensures !Private(n) ==> task.files == old(task.files)
  {
    var r;
    if Plain(n) {
      r := task.files.Dup2(fd[1], fd[2]);
      DoCloseRange(task, 3, false, Private(n));
      failures := CheckClosed(task, fd, 0);
    } else {
      DoCloseRange(task, 3, true, Private(n));
      var f0 := CheckCloexec(task, fd[0], true);
      var f1 := CheckCloexec(task, fd[1], true);
      r := task.files.Dup2(fd[1], fd[2]);
      var f2 := CheckCloexec(task, fd[2], false);
      failures := f0 + f1 + f2;
    }
  }

  /** 1000 duplicated onto 42. */
  function Dupped(slots: Slots): Slots {
    if HIGH in slots then Duped(slots, HIGH, MIDDLE) else slots
  }

  /** What case n must have made of descriptor i: closed, marked, or open and unmarked. */
  predicate AsExpected(n: nat, i: nat, slots: Slots, fd: nat) {
    if n == 0 || (n == 3 && i == 2) then fd !in slots
    else fd in slots && slots[fd].cloexec == (n == 2 && i < 2)
  }

  /** The same case by case. */
  lemma ExpectedExactly(n: nat, slots: Slots, a: nat, b: nat, c: nat)
    requires n < 4
    ensures AsExpected(n, 0, slots, a) && AsExpected(n, 1, slots, b) && AsExpected(n, 2, slots, c) <==>
      match n
      case 0 => a !in slots && b !in slots && c !in slots
      case 1 => a in slots && b in slots && c in slots && !slots[a].cloexec && !slots[b].cloexec && !slots[c].cloexec
      case 2 => a in slots && b in slots && c in slots && slots[a].cloexec && slots[b].cloexec && !slots[c].cloexec
      case _ => a in slots && b in slots && c !in slots && !slots[a].cloexec && !slots[b].cloexec
  {
  }

  /** The parent's checks after the child is gone: one failure for each descriptor that is not as expected. */
  method ParentChecks(n: nat, task: Task, fd: seq<nat>) returns (failures: nat)
    requires n < 4 && |fd| == 3
    ensures failures == (if AsExpected(n, 0, task.files.slots, fd[0]) then 0 else 1)
      + (if AsExpected(n, 1, task.files.slots, fd[1]) then 0 else 1) + (if AsExpected(n, 2, task.files.slots, fd[2]) then 0 else 1)
  {
    if n == 0 {
      failures := CheckClosed(task, fd, 0);
      CountsOpen(task.files.slots, fd, 0);
    } else {
      var f0 := CheckCloexec(task, fd[0], n == 2);
      var f1 := CheckCloexec(task, fd[1], n == 2);
      var f2;
      if n == 3 {
        f2 := CheckClosed(task, fd, 2);
        CountsOpen(task.files.slots, fd, 2);
      } else {
        f2 := CheckCloexec(task, fd[2], false);
      }
      failures := f0 + f1 + f2;
    }
  }

  /**
   Case n from a table with only the standard descriptors.  The set-up lets a limit of 1000
   pass, but descriptor 1000 needs one more: with more than 1000 every check in parent and
   child holds and the table is as before, with exactly 1000 the test breaks off.
   */
  method Run(n: nat, parent: Task, file: nat) returns (r: Report)
    requires n < 4 && OnlyStandard(parent.files.slots)
    modifies parent, parent.files
    ensures parent.files.limit == old(parent.files.limit)
    ensures old(parent.files.limit) < HIGH ==> r == NotSupported && parent.files == old(parent.files)
    ensures old(parent.files.limit) == HIGH ==> r == Broken
    ensures old(parent.files.limit) > HIGH ==> r == Ran(0)
    ensures r != Broken ==> parent.files.slots == old(parent.files.slots)
    ensures parent.files == old(parent.files) || fresh(parent.files)
  {
    if parent.files.limit < HIGH {
      return NotSupported;
    }
    ghost var was := parent.files.slots;
    DoCloseRange(parent, 3, n == 2 || n == 3, Private(n));
    assert parent.files.slots == was;
    ThreeIsLowest(was, parent.files.limit);
    var fd0 := parent.files.Open(file);
    var fd1 := parent.files.Dup2(fd0, HIGH);
    if fd1 == -1 {
      return Broken;
    }
    var failures := ShareAndCheck(n, parent, file, was);
    r := Ran(failures);
  }

  /** Clones with a shared table, waits for the child, checks, and closes what is left. */
  method ShareAndCheck(n: nat, parent: Task, ghost file: nat, ghost was: Slots) returns (failures: nat)
    requires n < 4 && OnlyStandard(was) && parent.files.limit > HIGH
    requires parent.files.slots == was[3 := Desc(file, false)][HIGH := Desc(file, false)]
    modifies parent, parent.files
    ensures failures == 0 && parent.files == old(parent.files) && parent.files.slots == was
  {
    var fd: seq<nat> := [3, HIGH, MIDDLE];
    var child := new Task(parent.files);
    var inChild := Child(n, child, fd);
    var inParent := ParentChecks(n, parent, fd);
    CloseAllAbove(parent, was);
    var after := CheckClosed(parent, fd, 0);
    failures := inChild + inParent + after;
  }

  method CloseAllAbove(task: Task, ghost was: Slots)
    requires OnlyStandard(was) && forall i :: 0 <= i < 3 ==> i in task.files.slots && task.files.slots[i] == was[i]
    modifies task, task.files
    ensures task.files == old(task.files) && task.files.slots == was
  {
    DoCloseRange(task, 3, false, false);
  }

  /** Any sequence of cases, one after the other. */
  method RunAll(cases: seq<nat>, parent: Task, file: nat) returns (failures: nat)
    requires forall i :: 0 <= i < |cases| ==> cases[i] < 4
    requires OnlyStandard(parent.files.slots) && parent.files.limit > HIGH
    modifies parent, parent.files
    ensures failures == 0 && parent.files.slots == old(parent.files.slots)
  {
    failures := 0;
    for i := 0 to |cases|
      invariant failures == 0 && parent.files.slots == old(parent.files.slots)
      invariant parent.files.limit == old(parent.files.limit)
      invariant parent.files == old(parent.files) || fresh(parent.files)
    {
      var r := Run(cases[i], parent, file);
      failures := failures + r.failures;
    }
  }
}
