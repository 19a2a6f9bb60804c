/**
 Descriptor tables with lowest-free allocation (section 2.14 of POSIX.1-2017 System
 Interfaces), and the loops of dup06.c, dup205.c and fcntl01.c over any initial table.
 */
module FdTable {
  import opened Options

  /** A descriptor refers to an open file and may be marked close-on-exec. */
  datatype Desc = Desc(file: nat, cloexec: bool)

  type Slots = map<nat, Desc>

  /** The lowest unused number in from..limit. */
  function Lowest(slots: Slots, from: nat, limit: nat): (r: Option<nat>)
    ensures r.None? ==> forall i :: from <= i < limit ==> i in slots
    ensures r.Some? ==> from <= r.value < limit && r.value !in slots
    ensures r.Some? ==> forall i :: from <= i < r.value ==> i in slots
    decreases limit - from
  {
    if from >= limit then None
    else if from !in slots then Some(from)
    else Lowest(slots, from + 1, limit)
  }

  function FreeSlots(slots: Slots, limit: nat): set<nat> {
    set i: nat | i < limit && i !in slots
  }

  /** target made to refer to what fd refers to, without close-on-exec. */
  function Duped(slots: Slots, fd: nat, target: nat): Slots
    requires fd in slots
  {
    if fd == target then slots else slots[target := Desc(slots[fd].file, false)]
  }

  /** The target refers to the same file, unmarked unless it is the descriptor itself; nothing else changes. */
  lemma DupedExactly(slots: Slots, fd: nat, target: nat, i: nat)
    requires fd in slots
    ensures var r := Duped(slots, fd, target);
      && (i in r <==> i in slots || i == target)
      && r[target].file == slots[fd].file && (target != fd ==> !r[target].cloexec)
      && (i in slots && (i != target || target == fd) ==> r[i] == slots[i])
  {
  }

  class Table {
    const limit: nat
    var slots: Slots

    constructor (slots: Slots, limit: nat)
      ensures this.slots == slots && this.limit == limit
    {
      this.slots, this.limit := slots, limit;
    }

    /** Installs d at the lowest free number not below from; -1 is EMFILE. */
    method Install(d: Desc, from: nat) returns (fd: int)
      modifies this
      ensures match Lowest(old(slots), from, limit)
        case Some(i) => fd == i && slots == old(slots)[i := d]
        case None => fd == -1 && slots == old(slots)
    {
      var i := from;
      while i < limit && i in slots
        invariant i <= limit || i == from
        invariant Lowest(slots, from, limit) == Lowest(slots, i, limit)
        decreases limit - i
      {
        i := i + 1;
      }
      if i < limit {
        slots := slots[i := d];
        fd := i;
      } else {
        fd := -1;
      }
    }

    method Open(file: nat) returns (fd: int)
      modifies this
      ensures match Lowest(old(slots), 0, limit)
        case Some(i) => fd == i && slots == old(slots)[i := Desc(file, false)]
        case None => fd == -1 && slots == old(slots)
    {
      fd := Install(Desc(file, false), 0);
    }

    /** fcntl(fd, F_DUPFD, from): EBADF, EINVAL and EMFILE all read as -1. */
    method DupFd(fd: int, from: int) returns (r: int)
      modifies this
      ensures if fd < 0 || fd !in old(slots) || from < 0 || from >= limit then r == -1 && slots == old(slots)
        else match Lowest(old(slots), from, limit)
          case Some(i) => r == i && slots == old(slots)[i := Desc(old(slots)[fd].file, false)]
          case None => r == -1 && slots == old(slots)
    {
      if fd < 0 || fd !in slots || from < 0 || from >= limit {
        r := -1;
      } else {
        r := Install(Desc(slots[fd].file, false), from);
      }
    }

    method Dup(fd: int) returns (r: int)
      modifies this
      ensures if fd < 0 || fd !in old(slots) then r == -1 && slots == old(slots)
        else match Lowest(old(slots), 0, limit)
          case Some(i) => r == i && slots == old(slots)[i := Desc(old(slots)[fd].file, false)]
          case None => r == -1 && slots == old(slots)
    {
      if fd < 0 || fd !in slots {
        r := -1;
      } else {
        r := Install(Desc(slots[fd].file, false), 0);
      }
    }

    /** dup2: replaces whatever was at the target; a target past the limit is EBADF. */
    method Dup2(fd: int, target: int) returns (r: int)
      modifies this
      ensures if fd < 0 || fd !in old(slots) || target < 0 || target >= limit then r == -1 && slots == old(slots)
        else r == target && slots == Duped(old(slots), fd, target)
    {
      if fd < 0 || fd !in slots || target < 0 || target >= limit {
        r := -1;
      } else {
        if fd != target {
          slots := slots[target := Desc(slots[fd].file, false)];
        }
        r := target;
      }
    }

    method Close(fd: int)
      modifies this
      ensures slots == if fd < 0 then old(slots) else old(slots) - {fd as nat}
    {
      if fd >= 0 {
        slots := slots - {fd};
      }
    }

    // ---- dup06.c ----

    method CntFreeFds(maxfd: nat) returns (freefds: nat)
      ensures freefds == |FreeSlots(slots, maxfd)|
    {
      freefds := 0;
      var i := maxfd;
      ghost var seen: set<nat> := {};
      while i > 0
        invariant 0 <= i <= maxfd
        invariant seen == set k: nat | i <= k < maxfd && k !in slots
        invariant freefds == |seen|
      {
        i := i - 1;
        if i !in slots {
          freefds := freefds + 1;
          seen := seen + {i};
        }
      }
      assert seen == FreeSlots(slots, maxfd);
    }
  }

  /** Taking a free slot leaves one fewer. */
  lemma OneFewer(slots: Slots, limit: nat, i: nat, d: Desc)
    requires i < limit && i !in slots
    ensures |FreeSlots(slots[i := d], limit)| == |FreeSlots(slots, limit)| - 1
  {
    assert FreeSlots(slots, limit) == FreeSlots(slots[i := d], limit) + {i};
  }

  lemma NoneLeft(slots: Slots, limit: nat)
    ensures Lowest(slots, 0, limit).None? <==> |FreeSlots(slots, limit)| == 0
  {
    if Lowest(slots, 0, limit).None? {
      assert FreeSlots(slots, limit) == {};
    } else {
      assert Lowest(slots, 0, limit).value in FreeSlots(slots, limit);
    }
  }

  lemma {:induction false} FreeBound(slots: Slots, limit: nat)
    ensures |FreeSlots(slots, limit)| <= limit
  {
    if limit == 0 {
      assert FreeSlots(slots, 0) == {};
    } else {
      FreeBound(slots, limit - 1);
      var less := FreeSlots(slots, limit - 1);
      assert FreeSlots(slots, limit) == if limit - 1 in slots then less else less + {limit - 1};
    }
  }

  /** The table with the slots in got referring to the file. */
  function Grant(slots: Slots, got: set<nat>, file: nat): Slots {
    slots + map i | i in got :: Desc(file, false)
  }

  lemma GrantOne(slots: Slots, got: set<nat>, i: nat, file: nat)
    ensures Grant(slots, got, file)[i := Desc(file, false)] == Grant(slots, got + {i}, file)
  {
  }

  /** The numbers handed out to positions lo..hi. */
  function Numbers(f: seq<int>, lo: nat, hi: nat): set<nat>
    requires lo <= hi <= |f|
  {
    if lo == hi then {}
    else
      var s := Numbers(f, lo, hi - 1);
      if f[hi - 1] >= 0 then s + {f[hi - 1]} else s
  }

  lemma {:induction false} InNumbers(f: seq<int>, lo: nat, hi: nat, n: nat)
    requires lo <= hi <= |f|
    ensures n in Numbers(f, lo, hi) <==> exists k :: lo <= k < hi && f[k] == n
  {
    if lo < hi {
      InNumbers(f, lo, hi - 1, n);
      assert f[hi - 1] == n ==> n in Numbers(f, lo, hi);
    }
  }

  lemma {:induction false} NumbersCount(f: seq<int>, lo: nat, hi: nat)
    requires lo <= hi <= |f| && forall j, k :: lo <= j < k < hi ==> 0 <= f[j] < f[k]
    requires lo < hi ==> f[lo] >= 0
    ensures |Numbers(f, lo, hi)| == hi - lo
  {
    if lo < hi {
      NumbersCount(f, lo, hi - 1);
      var last := f[hi - 1];
      assert hi - 1 > lo ==> f[lo] < last;
      InNumbers(f, lo, hi - 1, last);
      assert last !in Numbers(f, lo, hi - 1);
    }
  }

  lemma {:induction false} NumbersSame(f: seq<int>, g: seq<int>, lo: nat, hi: nat)
    requires lo <= hi <= |f| && hi <= |g| && forall k :: lo <= k < hi ==> f[k] == g[k]
    ensures Numbers(f, lo, hi) == Numbers(g, lo, hi)
  {
    if lo < hi {
      NumbersSame(f, g, lo, hi - 1);
    }
  }

  lemma {:induction false} NumbersAtMost(f: seq<int>, lo: nat, hi: nat)
    requires lo <= hi <= |f|
    ensures |Numbers(f, lo, hi)| <= hi - lo
  {
    if lo < hi {
      NumbersAtMost(f, lo, hi - 1);
    }
  }

  /** The first n entries are distinct descriptors that were free and now refer to the file. */
  ghost predicate Progress(was: Slots, now: Slots, limit: nat, fildes: seq<int>, n: nat, file: nat)
    requires n <= |fildes|
  {
    var got := Numbers(fildes, 0, n);
    && got <= FreeSlots(was, limit) && now == Grant(was, got, file)
    && |FreeSlots(now, limit)| + n == |FreeSlots(was, limit)|
    && (forall k :: 0 <= k < n ==> fildes[k] >= 0)
    && (forall k :: n < k < |fildes| ==> fildes[k] == 0)
  }

  lemma ProgressStep(was: Slots, now: Slots, limit: nat, fildes: seq<int>, n: nat, file: nat, fd: nat)
    requires n < |fildes| && Progress(was, now, limit, fildes, n, file)
    requires fd < limit && fd !in now
    ensures Progress(was, now[fd := Desc(file, false)], limit, fildes[n := fd], n + 1, file)
  {
    var more := fildes[n := fd];
    NumbersSame(fildes, more, 0, n);
    OneFewer(now, limit, fd, Desc(file, false));
    GrantOne(was, Numbers(fildes, 0, n), fd, file);
  }

  /** A failed dup is recorded behind the descriptors. */
  lemma ProgressFail(was: Slots, now: Slots, limit: nat, fildes: seq<int>, n: nat, file: nat)
    requires n < |fildes| && Progress(was, now, limit, fildes, n, file)
    ensures Progress(was, now, limit, fildes[n := -1], n, file)
  {
    NumbersSame(fildes, fildes[n := -1], 0, n);
  }

  lemma ProgressStart(was: Slots, limit: nat, fildes: seq<int>, file: nat)
    requires forall k :: 0 <= k < |fildes| ==> fildes[k] == 0
    ensures Progress(was, was, limit, fildes, 0, file)
  {
    assert Numbers(fildes, 0, 0) == {};
    assert Grant(was, {}, file) == was;
  }

  /** When nothing is free any more, everything that was free has been handed out. */
  lemma ProgressEnd(was: Slots, now: Slots, limit: nat, fildes: seq<int>, n: nat, file: nat)
    requires n <= |fildes| && Progress(was, now, limit, fildes, n, file) && |FreeSlots(now, limit)| == 0
    ensures n == |FreeSlots(was, limit)| && Numbers(fildes, 0, n) == FreeSlots(was, limit)
  {
    var got := Numbers(fildes, 0, n);
    forall i | i in FreeSlots(was, limit)
      ensures i in got
    {
      assert FreeSlots(now, limit) == {};
      assert i !in FreeSlots(now, limit);
    }
  }

  /**
   Opens the file and duplicates the last descriptor until that fails: the entry that
   fails has the number of free slots there were, and all of them now refer to the file.
   */
  method DupUntilFull(t: Table, fildes: array<int>, file: nat) returns (i: nat)
    requires fildes.Length == t.limit + 5
    requires forall k :: 0 <= k < fildes.Length ==> fildes[k] == 0
    modifies t, fildes
    ensures i == |FreeSlots(old(t.slots), t.limit)| <= t.limit && fildes[i] == -1
    ensures Progress(old(t.slots), t.slots, t.limit, fildes[..], i, file)
    ensures Numbers(fildes[..], 0, i) == FreeSlots(old(t.slots), t.limit)
  {
    hide FreeSlots, Grant, Lowest, Numbers;
    ghost var was, entries := t.slots, fildes[..];
    FreeBound(was, t.limit);
    NoneLeft(was, t.limit);
    ProgressStart(was, t.limit, entries, file);
    i := 0;
    var fd := t.Open(file);
    fildes[0] := fd;
    assert fildes[..] == entries[0 := fd];
    if fd != -1 {
      ProgressStep(was, was, t.limit, entries, 0, file, fd);
      i := 1;
      while i < t.limit + 5
        invariant 1 <= i <= t.limit && Progress(was, t.slots, t.limit, fildes[..], i, file)
        invariant fd == fildes[i - 1] && 0 <= fd && fd in t.slots && t.slots[fd as nat].file == file
        invariant |FreeSlots(was, t.limit)| <= t.limit
      {
        ghost var now := t.slots;
        entries := fildes[..];
        NoneLeft(now, t.limit);
        fd := t.Dup(fildes[i - 1]);
        fildes[i] := fd;
        assert fildes[..] == entries[i := fd];
        if fd == -1 {
          break;
        }
        ProgressStep(was, now, t.limit, entries, i, file, fd);
        i := i + 1;
      }
    }
    ProgressFail(was, t.slots, t.limit, entries, i, file);
    NoneLeft(t.slots, t.limit);
    ProgressEnd(was, t.slots, t.limit, fildes[..], i, file);
  }

  /** The clean-up loop: it takes entry 0 to mean unused, so descriptor 0 is never closed. */
  method CloseAll(t: Table, fildes: array<int>)
    modifies t, fildes
    ensures t.slots == old(t.slots) - (Numbers(old(fildes[..]), 0, fildes.Length) - {0})
    ensures forall k :: 0 <= k < fildes.Length ==> fildes[k] == 0
  {
    ghost var was := fildes[..];
    var i := 0;
    while i < fildes.Length
      invariant 0 <= i <= fildes.Length
      invariant t.slots == old(t.slots) - (Numbers(was, 0, i) - {0})
      invariant forall k :: 0 <= k < fildes.Length ==> fildes[k] == if k < i then 0 else was[k]
    {
      if fildes[i] != 0 && fildes[i] != -1 {
        t.Close(fildes[i]);
      }
      fildes[i] := 0;
      i := i + 1;
    }
  }

  lemma {:induction false} NumbersTail(fildes: seq<int>, n: nat, m: nat)
    requires n <= m <= |fildes| && forall k :: n <= k < m ==> fildes[k] <= 0
    ensures Numbers(fildes, 0, m) - {0} == Numbers(fildes, 0, n) - {0}
    decreases m
  {
    if n < m {
      NumbersTail(fildes, n, m - 1);
    }
  }

  datatype Verdict = Passed | NotEnough | TooMany | CannotOpen

  /** One pass of the test: the verdict, and the one slot it may leave open. */
  method Dup06Pass(t: Table, fildes: array<int>, file: nat, freefds: nat) returns (v: Verdict)
    requires fildes.Length == t.limit + 5
    requires forall k :: 0 <= k < fildes.Length ==> fildes[k] == 0
    modifies t, fildes
    ensures forall k :: 0 <= k < fildes.Length ==> fildes[k] == 0
    ensures t.slots == if 0 in FreeSlots(old(t.slots), t.limit) then old(t.slots)[0 := Desc(file, false)] else old(t.slots)
    ensures var n := |FreeSlots(old(t.slots), t.limit)|;
      v == if n == 0 then CannotOpen else if n < freefds then NotEnough else if n > freefds then TooMany else Passed
  {
    hide Grant, Numbers, Lowest;
    ghost var was := t.slots;
    var i := DupUntilFull(t, fildes, file);
    if fildes[0] == -1 {
      v := CannotOpen;
    } else {
      v := if i < freefds then NotEnough else if i > freefds then TooMany else Passed;
    }
    ghost var got := FreeSlots(was, t.limit);
    NumbersTail(fildes[..], i, fildes.Length);
    CloseAll(t, fildes);
    assert t.slots == Grant(was, got, file) - (got - {0});
    OnlyZeroStays(was, got, file);
  }

  lemma OnlyZeroStays(was: Slots, got: set<nat>, file: nat)
    requires got !! was.Keys
    ensures Grant(was, got, file) - (got - {0}) == if 0 in got then was[0 := Desc(file, false)] else was
  {
  }

  /** With n slots free at the start: a pass that finds them all, or one that finds one fewer. */
  function VerdictOf(n: nat, all: bool): Verdict {
    if n == 0 then CannotOpen else if all then Passed else if n == 1 then CannotOpen else NotEnough
  }

  /** No verdict but these is ever given, and success means that something is free and nothing was lost. */
  lemma VerdictsExactly(n: nat, all: bool)
    ensures VerdictOf(n, all) == Passed <==> n > 0 && all
    ensures VerdictOf(n, all) == NotEnough <==> n >= 2 && !all
    ensures VerdictOf(n, all) != TooMany
  {
  }

  /**
   Any number of passes over any table.  The first pass succeeds if anything is free; the
   later ones do so exactly when descriptor 0 was in use to begin with, because a pass
   that is handed descriptor 0 does not give it back.
   */
  method Dup06(t: Table, file: nat, loops: nat) returns (verdicts: seq<Verdict>)
    modifies t
    ensures |verdicts| == loops
    ensures forall k :: 0 <= k < loops ==>
      verdicts[k] == VerdictOf(|FreeSlots(old(t.slots), t.limit)|, k == 0 || 0 in old(t.slots))
    ensures 0 in old(t.slots) ==> t.slots == old(t.slots)
  {
    var freefds := t.CntFreeFds(t.limit);
    var fildes := new int[t.limit + 5](_ => 0);
    verdicts := [];
    ghost var was := t.slots;
    ghost var free := FreeSlots(was, t.limit);
    for lc := 0 to loops
      invariant |verdicts| == lc && fildes.Length == t.limit + 5
      invariant forall k :: 0 <= k < fildes.Length ==> fildes[k] == 0
      invariant t.slots == if 0 in free && lc > 0 then was[0 := Desc(file, false)] else was
      invariant forall k :: 0 <= k < lc ==> verdicts[k] == VerdictOf(freefds, k == 0 || 0 in was)
    {
      if 0 in free {
        OneFewer(was, t.limit, 0, Desc(file, false));
      } else if |free| > 0 {
        NoneLeft(was, t.limit);
        assert t.limit > 0 ==> 0 in was;
      }
      var v := Dup06Pass(t, fildes, file, freefds);
      verdicts := verdicts + [v];
    }
  }

  /** Two slots, nothing open: the first pass succeeds and the second one does not. */
  method SecondPassFails() returns (verdicts: seq<Verdict>)
    ensures verdicts == [Passed, NotEnough]
  {
    var t := new Table(map[], 2);
    assert FreeSlots(t.slots, 2) == {0, 1};
    verdicts := Dup06(t, 7, 2);
  }

  // ---- dup205.c ----

  function Between(lo: nat, hi: nat): (s: set<nat>)
    ensures forall i: nat :: i in s <==> lo <= i < hi
  {
    if hi <= lo then {} else Between(lo, hi - 1) + {hi - 1}
  }

  /** Every slot from first up to the limit referring to the file. */
  function Chained(slots: Slots, first: nat, limit: nat, file: nat): Slots {
    if limit <= first then slots
    else Chained(slots, first, limit - 1, file)[limit - 1 := Desc(file, false)]
  }

  lemma {:induction false} ChainedIsGranted(slots: Slots, first: nat, limit: nat, file: nat)
    ensures Chained(slots, first, limit, file) == Grant(slots, Between(first, limit), file)
  {
    if limit > first {
      ChainedIsGranted(slots, first, limit - 1, file);
      GrantOne(slots, Between(first, limit - 1), limit - 1, file);
    }
  }

  /** Closing the chain again leaves only slot 0 if it was part of it. */
  lemma ChainUndone(slots: Slots, first: nat, limit: nat, file: nat)
    requires Lowest(slots, 0, limit) == Some(first)
    ensures Chained(slots, first, limit, file) - (Between(first, limit) - {0}) ==
      (if first == 0 then slots[0 := Desc(file, false)] else slots) - (Between(first, limit) - {0})
  {
    ChainedIsGranted(slots, first, limit, file);
  }

  /**
   The dup2 chain from the first free slot: it stops exactly at the table size, with EBADF,
   and every slot from the first one then refers to the same file.
   */
  method Dup2Chain(t: Table, fildes: array<int>, file: nat) returns (first: int, ifile: nat)
    requires fildes.Length == t.limit + 10
    modifies t, fildes
    ensures first >= -1 && (first == -1 <==> |FreeSlots(old(t.slots), t.limit)| == 0)
    ensures first == -1 ==> t.slots == old(t.slots)
    ensures first >= 0 ==> Lowest(old(t.slots), 0, t.limit) == Some(first)
    ensures first >= 0 ==> ifile == t.limit && fildes[t.limit] == -1
    ensures first >= 0 ==> t.slots == Chained(old(t.slots), first, t.limit, file)
    ensures first >= 0 ==> forall k :: first <= k < t.limit ==> fildes[k] == k
    ensures forall k :: t.limit < k < fildes.Length ==> fildes[k] == old(fildes[k])
  {
    ghost var was := t.slots;
    NoneLeft(was, t.limit);
    ifile := 0;
    first := t.Open(file);
    if first >= 0 {
      fildes[0] := first;
      fildes[fildes[0]] := fildes[0];
      ifile := ExtendChain(t, fildes, first, file, was);
    }
  }

  /** The loop of the chain, from the slot behind the first one. */
  method ExtendChain(t: Table, fildes: array<int>, first: nat, file: nat, ghost was: Slots) returns (ifile: nat)
    requires fildes.Length == t.limit + 10 && first < t.limit && fildes[first] == first
    requires t.slots == Chained(was, first, first + 1, file) && t.slots[first] == Desc(file, false)
    modifies t, fildes
    ensures ifile == t.limit && fildes[t.limit] == -1
    ensures t.slots == Chained(was, first, t.limit, file)
    ensures forall k :: first <= k < t.limit ==> fildes[k] == k
    ensures forall k :: t.limit < k < fildes.Length ==> fildes[k] == old(fildes[k])
  {
    ifile := first + 1;
    while ifile < t.limit + 10
      invariant first < ifile <= t.limit
      invariant t.slots == Chained(was, first, ifile, file)
      invariant ifile - 1 in t.slots && t.slots[ifile - 1] == Desc(file, false)
      invariant forall k :: first <= k < ifile ==> fildes[k] == k
      invariant forall k :: t.limit < k < fildes.Length ==> fildes[k] == old(fildes[k])
    {
      fildes[ifile] := t.Dup2(fildes[ifile - 1], ifile);
      if fildes[ifile] == -1 {
        break;
      }
      ifile := ifile + 1;
    }
  }

  /** The run with its clean-up, which closes everything from the first slot on except slot 0. */
  method Dup205(t: Table, file: nat) returns (passed: bool)
    modifies t
    ensures passed <==> |FreeSlots(old(t.slots), t.limit)| > 0
    ensures !passed ==> t.slots == old(t.slots)
    ensures passed ==> var first := Lowest(old(t.slots), 0, t.limit).value;
      t.slots == (if first == 0 then old(t.slots)[0 := Desc(file, false)] else old(t.slots))
                 - (Between(first, t.limit) - {0})
  {
    hide Lowest, Chained, FreeSlots;
    ghost var was := t.slots;
    NoneLeft(was, t.limit);
    var fildes := new int[t.limit + 10](_ => -1);
    var first, ifile := Dup2Chain(t, fildes, file);
    passed := first >= 0 && ifile == t.limit;
    if first >= 0 {
      var i: nat := first;
      ghost var full := t.slots;
      ChainUndone(was, first, t.limit, file);
      while i < t.limit + 10
        invariant first <= i <= t.limit + 10
        invariant forall k :: t.limit <= k < fildes.Length ==> fildes[k] == -1
        invariant forall k :: first <= k < t.limit ==> fildes[k] == k
        invariant t.slots == full - (Between(first, if i < t.limit then i else t.limit) - {0})
      {
        if fildes[i] > 0 {
          t.Close(fildes[i]);
        }
        i := i + 1;
      }
    }
  }

  // ---- fcntl01.c ----

  /** n opens in a row: increasing numbers, each the lowest free at the time, then -1s. */
  ghost predicate OpensFrom(was: Slots, now: Slots, limit: nat, fd: seq<int>, n: nat)
    requires n <= |fd|
  {
    && now.Keys == was.Keys + Numbers(fd, 0, n)
    && (forall k :: 0 <= k < n ==> fd[k] >= -1)
    && (forall k :: 0 <= k < n && fd[k] >= 0 ==> fd[k] < limit && fd[k] in now && fd[k] !in was)
    && (forall k, i :: 0 <= k < n && 0 <= i < fd[k] ==> i in now)
    && (forall j, k :: 0 <= j < k < n && fd[k] >= 0 ==> 0 <= fd[j] < fd[k])
    && (forall k :: 0 <= k < n && fd[k] == -1 ==> Lowest(now, 0, limit).None?)
  }

  lemma OpensNone(was: Slots, limit: nat, f: seq<int>)
    ensures OpensFrom(was, was, limit, f, 0)
  {
  }

  method OpenEight(t: Table, fd: array<int>) returns (broken: nat)
    requires fd.Length == 10
    modifies t, fd
    ensures broken == |MissingPositions(fd[..], 8)| == Missing(fd[..], 8)
    ensures OpensFrom(old(t.slots), t.slots, t.limit, fd[..], 8)
  {
    hide Lowest, Numbers, OpensFrom;
    OpensNone(t.slots, t.limit, fd[..]);
    var i := 0;
    broken := 0;
    while i < 8
      invariant 0 <= i <= 8 && OpensFrom(old(t.slots), t.slots, t.limit, fd[..], i)
      invariant broken == Missing(fd[..], i)
    {
      ghost var f, now := fd[..], t.slots;
      var r := t.Open(i);
      OpensOne(old(t.slots), now, t.limit, f, i, Desc(i, false));
      fd[i] := r;
      assert fd[..] == f[i := r];
      MissingSame(f, fd[..], i);
      if fd[i] == -1 {
        broken := broken + 1;
      }
      i := i + 1;
    }
    MissingExactly(fd[..], 8);
  }

  lemma OpensOne(was: Slots, now: Slots, limit: nat, f: seq<int>, n: nat, d: Desc)
    requires n < |f| && OpensFrom(was, now, limit, f, n)
    ensures match Lowest(now, 0, limit)
      case Some(i) => OpensFrom(was, now[i := d], limit, f[n := i], n + 1)
      case None => OpensFrom(was, now, limit, f[n := -1], n + 1)
  {
    match Lowest(now, 0, limit)
    case Some(i) => OpensOneMore(was, now, now[i := d], limit, f, f[n := i], n);
    case None => OpensNoMore(was, now, limit, f, f[n := -1], n);
  }

  lemma OpensNoMore(was: Slots, now: Slots, limit: nat, f: seq<int>, g: seq<int>, n: nat)
    requires n < |f| == |g| && OpensFrom(was, now, limit, f, n)
    requires g[n] == -1 && Lowest(now, 0, limit).None? && forall k :: 0 <= k < n ==> g[k] == f[k]
    ensures OpensFrom(was, now, limit, g, n + 1)
  {
    NumbersSame(f, g, 0, n);
  }

  lemma OpensOneMore(was: Slots, now: Slots, next: Slots, limit: nat, f: seq<int>, g: seq<int>, n: nat)
    requires n < |f| == |g| && OpensFrom(was, now, limit, f, n)
    requires g[n] >= 0 && Lowest(now, 0, limit) == Some(g[n]) && forall k :: 0 <= k < n ==> g[k] == f[k]
    requires next.Keys == now.Keys + {g[n] as nat}
    ensures OpensFrom(was, next, limit, g, n + 1)
  {
    NumbersSame(f, g, 0, n);
    forall j | 0 <= j < n
      ensures 0 <= g[j] < g[n]
    {
      var newest := g[n];
      assert f[j] >= -1;
      assert 0 <= newest < f[j] ==> newest in now;
    }
  }

  /** The later numbers are above the earlier ones, and once one is missing all are. */
  lemma Ascending(was: Slots, now: Slots, limit: nat, f: seq<int>)
    requires |f| == 10 && OpensFrom(was, now, limit, f, 8)
    ensures f[1] >= 0 ==> 1 <= f[1] < limit && f[1] in now
    ensures f[2] >= 0 ==> f[1] >= 0 && f[1] < f[2]
    ensures f[3] >= 0 ==> f[2] >= 0 && f[2] < f[3]
    ensures f[5] >= 0 ==> f[3] >= 0 && f[3] < f[5]
  {
    assert f[0] >= -1 && f[1] >= -1 && f[2] >= -1 && f[3] >= -1 && f[5] >= -1;
  }

  /** Open number k succeeds exactly when more than k slots were free. */
  lemma OpensExactly(was: Slots, now: Slots, limit: nat, f: seq<int>, k: nat)
    requires |f| == 10 && OpensFrom(was, now, limit, f, 8) && k < 8
    ensures f[k] >= 0 <==> |FreeSlots(was, limit)| > k
  {
    var free := FreeSlots(was, limit);
    if f[k] >= 0 {
      AllFree(was, now, limit, f, k + 1);
      var got := Numbers(f, 0, k + 1);
      assert free == got + (free - got);
    } else {
      NoneElse(was, now, limit, f, k);
      var got := Numbers(f, 0, k);
      NumbersAtMost(f, 0, k);
      assert got == free + (got - free);
    }
  }

  lemma AllFree(was: Slots, now: Slots, limit: nat, f: seq<int>, n: nat)
    requires |f| == 10 && OpensFrom(was, now, limit, f, 8) && 1 <= n <= 8 && f[n - 1] >= 0
    ensures |Numbers(f, 0, n)| == n && Numbers(f, 0, n) <= FreeSlots(was, limit)
  {
    assert forall k :: 0 <= k < n - 1 ==> 0 <= f[k] < f[n - 1];
    NumbersCount(f, 0, n);
    forall i | i in Numbers(f, 0, n)
      ensures i in FreeSlots(was, limit)
    {
      InNumbers(f, 0, n, i);
      var k :| 0 <= k < n && f[k] == i;
    }
  }

  lemma NoneElse(was: Slots, now: Slots, limit: nat, f: seq<int>, n: nat)
    requires |f| == 10 && OpensFrom(was, now, limit, f, 8) && n < 8 && f[n] < 0
    ensures FreeSlots(was, limit) <= Numbers(f, 0, n)
  {
    assert f[n] == -1;
    assert forall k :: n < k < 8 ==> f[k] < 0;
    forall i | i in FreeSlots(was, limit)
      ensures i in Numbers(f, 0, n)
    {
      assert i in now;
      InNumbers(f, 0, 8, i);
      var k :| 0 <= k < 8 && f[k] == i;
      InNumbers(f, 0, n, i);
    }
  }

  /** With positions lo..hi closed again, the lowest free number from a lower one on is f[lo]. */
  lemma Reopened(was: Slots, now: Slots, limit: nat, f: seq<int>, lo: nat, from: nat)
    requires |f| == 10 && OpensFrom(was, now, limit, f, 8) && lo < 6
    requires f[lo] >= 0 ==> from <= f[lo]
    ensures var after := now - Numbers(f, lo, 6);
      Lowest(after, from, limit) == if f[lo] >= 0 then Some(f[lo]) else None
  {
    var after := now - Numbers(f, lo, 6);
    if f[lo] < 0 {
      assert f[lo] == -1;
      forall n: nat
        ensures n !in Numbers(f, lo, 6)
      {
        InNumbers(f, lo, 6, n);
      }
      assert after == now;
    } else {
      InNumbers(f, lo, 6, f[lo]);
      forall i: nat | i < f[lo]
        ensures i in after
      {
        InNumbers(f, lo, 6, i);
        assert i in now;
      }
    }
  }

  method CloseNumbers(t: Table, fd: array<int>)
    requires fd.Length == 10
    modifies t
    ensures t.slots == old(t.slots) - Numbers(fd[..], 2, 6)
  {
    var i := 2;
    while i < 6
      invariant 2 <= i <= 6 && t.slots == old(t.slots) - Numbers(fd[..], 2, i)
    {
      t.Close(fd[i]);
      i := i + 1;
    }
  }

  /** The opens that failed, each of which the test reports. */
  function Missing(f: seq<int>, n: nat): (m: nat)
    requires n <= |f|
    ensures m <= n
    ensures m == 0 <==> forall k :: 0 <= k < n ==> f[k] != -1
  {
    if n == 0 then 0 else Missing(f, n - 1) + if f[n - 1] == -1 then 1 else 0
  }

  ghost function MissingPositions(f: seq<int>, n: nat): set<nat>
    requires n <= |f|
  {
    set k: nat | k < n && f[k] == -1
  }

  /** One for each position. */
  lemma {:induction false} MissingExactly(f: seq<int>, n: nat)
    requires n <= |f|
    ensures Missing(f, n) == |MissingPositions(f, n)|
  {
    if n > 0 {
      MissingExactly(f, n - 1);
      var less := MissingPositions(f, n - 1);
      assert MissingPositions(f, n) == if f[n - 1] == -1 then less + {n - 1} else less;
    }
  }

  lemma {:induction false} MissingSame(f: seq<int>, g: seq<int>, n: nat)
    requires n <= |f| && n <= |g| && forall k :: 0 <= k < n ==> f[k] == g[k]
    ensures Missing(f, n) == Missing(g, n)
  {
    if n > 0 {
      MissingSame(f, g, n - 1);
    }
  }

  /** The opens that fail are the last ones, one for each slot short of eight. */
  lemma MissingCounts(was: Slots, now: Slots, limit: nat, f: seq<int>)
    requires |f| == 10 && OpensFrom(was, now, limit, f, 8)
    ensures var n := |FreeSlots(was, limit)|; Missing(f, 8) == if n < 8 then 8 - n else 0
  {
    hide OpensFrom, FreeSlots;
    var n := |FreeSlots(was, limit)|;
    forall k: nat | k < 8
      ensures f[k] == -1 <==> n <= k
    {
      OpensExactly(was, now, limit, f, k);
      AtLeastMinusOne(was, now, limit, f, k);
    }
    MissingFrom(f, n, 8);
  }

  lemma AtLeastMinusOne(was: Slots, now: Slots, limit: nat, f: seq<int>, k: nat)
    requires |f| == 10 && OpensFrom(was, now, limit, f, 8) && k < 8
    ensures f[k] >= -1
  {
  }

  lemma {:induction false} MissingFrom(f: seq<int>, n: nat, m: nat)
    requires m <= |f| && forall k :: 0 <= k < m ==> (f[k] == -1 <==> n <= k)
    ensures Missing(f, m) == if n < m then m - n else 0
  {
    if m > 0 {
      MissingFrom(f, n, m - 1);
    }
  }

  /** The six reports on the numbers that F_DUPFD returned. */
  method ReportDups(fd2: seq<int>, dup2: int, dup4: int, dup8: int) returns (failures: nat)
    requires |fd2| == 8
    ensures failures == 0 <==> dup2 != -1 && dup2 >= fd2[2] && dup4 >= 0 && dup4 >= fd2[3] && dup8 >= 0 && dup8 == fd2[5]
    ensures failures == (if dup2 == -1 then 1 else 0) + (if dup2 < fd2[2] then 1 else 0) + (if dup4 < 0 then 1 else 0)
      + (if dup4 < fd2[3] then 1 else 0) + (if dup8 < 0 then 1 else 0) + (if dup8 != fd2[5] then 1 else 0)
  {
    failures := 0;
    if dup2 == -1 {
      failures := failures + 1;
    }
    if dup2 < fd2[2] {
      failures := failures + 1;
    }
    if dup4 < 0 {
      failures := failures + 1;
    }
    if dup4 < fd2[3] {
      failures := failures + 1;
    }
    if dup8 < 0 {
      failures := failures + 1;
    }
    if dup8 != fd2[5] {
      failures := failures + 1;
    }
  }

  /**
   Eight opens, four closes and three F_DUPFD calls with the next free number above, equal
   to and past what is asked for.  On every table each call returns the number that was
   expected of it, even where that is -1.  Every failed open is reported, so the test
   passes exactly when eight slots were free.
   */
  method Fcntl01(t: Table) returns (fd2: seq<int>, dup2: int, dup4: int, dup8: int, failures: nat)
    modifies t
    ensures |fd2| == 8 && dup2 == fd2[2] && dup4 == fd2[3] && dup8 == fd2[5]
    ensures dup8 >= 0 <==> |FreeSlots(old(t.slots), t.limit)| >= 6
    ensures dup8 >= 0 ==> dup8 > dup4 > dup2 > 1
    ensures failures == 0 <==> |FreeSlots(old(t.slots), t.limit)| >= 8
    ensures var n := |FreeSlots(old(t.slots), t.limit)|;
      failures == (if n < 8 then 8 - n else 0) + (if n < 3 then 1 else 0) + (if n < 4 then 1 else 0) + (if n < 6 then 1 else 0)
  {
    var fd := new int[10];
    failures := OpenEight(t, fd);
    ghost var was, now, f := old(t.slots), t.slots, fd[..];
    fd2 := fd[..8];
    Ascending(was, now, t.limit, f);
    OpensExactly(was, now, t.limit, f, 5);
    OpensExactly(was, now, t.limit, f, 7);
    OpensExactly(was, now, t.limit, f, 2);
    OpensExactly(was, now, t.limit, f, 3);
    MissingCounts(was, now, t.limit, f);
    CloseNumbers(t, fd);
    dup2, dup4, dup8 := DupThree(t, fd[1], fd2[3], fd2[5], was, now, f);
    var wrong := ReportDups(fd2, dup2, dup4, dup8);
    failures := failures + wrong;
  }

  method DupThree(t: Table, fd1: int, from4: int, from8: int, ghost was: Slots, ghost now: Slots, ghost f: seq<int>)
    returns (dup2: int, dup4: int, dup8: int)
    requires |f| == 10 && OpensFrom(was, now, t.limit, f, 8)
    requires fd1 == f[1] && from4 == f[3] && from8 == f[5] && t.slots == now - Numbers(f, 2, 6)
    modifies t
    ensures dup2 == f[2] && dup4 == f[3] && dup8 == f[5]
  {
    Ascending(was, now, t.limit, f);
    Reopened(was, now, t.limit, f, 2, 1);
    StillOpen(now, f);
    dup2 := t.DupFd(fd1, 1);
    if f[1] >= 0 {
      Taken(was, now, t.limit, f, t.slots);
    }
    dup4 := t.DupFd(fd1, from4);
    dup8 := t.DupFd(fd1, from8);
  }

  lemma StillOpen(now: Slots, f: seq<int>)
    requires |f| == 10 && (f[1] >= 0 ==> f[1] in now && forall k :: 2 <= k < 6 ==> f[k] != f[1])
    ensures f[1] >= 0 ==> f[1] in now - Numbers(f, 2, 6)
  {
    if f[1] >= 0 {
      InNumbers(f, 2, 6, f[1]);
    }
  }

  /** After f[2] is handed out again, the numbers f[3] and f[5] are free if they exist. */
  lemma Taken(was: Slots, now: Slots, limit: nat, f: seq<int>, mid: Slots)
    requires |f| == 10 && OpensFrom(was, now, limit, f, 8) && f[1] >= 0
    requires mid.Keys == (now.Keys - Numbers(f, 2, 6)) + (if f[2] >= 0 then {f[2] as nat} else {})
    ensures f[1] in mid
    ensures f[3] >= 0 ==> Lowest(mid, f[3], limit) == Some(f[3])
    ensures f[5] >= 0 ==> f[5] !in mid && f[5] != f[3] && f[5] < limit
  {
    Ascending(was, now, limit, f);
    InNumbers(f, 2, 6, f[1]);
    if f[3] >= 0 {
      InNumbers(f, 2, 6, f[3]);
    }
    if f[5] >= 0 {
      InNumbers(f, 2, 6, f[5]);
    }
  }
}
