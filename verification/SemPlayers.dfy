/**
 The two players of eventfd2_03.c: each posts a batch on its own semaphore eventfd and then
 waits that many times on the other's, over any list of batch sizes and any interleaving.
 */
module SemPlayers {
  import opened Words
  import opened Eventfd

  /** xsem_post takes a C int; the player posts and then waits that often. */
  type Batches = b: seq<int> | forall i :: 0 <= i < |b| ==> 1 <= b[i] < 0x8000_0000

  /** Where a player is: in which batch, whether it has posted it, how often it has waited. */
  datatype Player = Player(phase: nat, posted: bool, waited: nat)

  /** mine is the counter a posts on and b waits on; theirs is the other one. */
  datatype State = State(a: Player, b: Player, mine: U64, theirs: U64)

  function Swap(s: State): State {
    State(s.b, s.a, s.theirs, s.mine)
  }

  const Init := State(Player(0, false, 0), Player(0, false, 0), 0, 0)

  predicate Finished(b: Batches, p: Player) {
    p.phase == |b|
  }

  predicate Proper(b: Batches, p: Player) {
    && p.phase <= |b|
    && (p.phase == |b| ==> !p.posted)
    && (p.posted ==> p.waited < b[p.phase])
    && (!p.posted ==> p.waited == 0)
  }

  // ---- one player's step, given the two counters ----

  predicate Enabled(b: Batches, s: State)
    requires Proper(b, s.a)
  {
    && !Finished(b, s.a)
    && if s.a.posted then Serve(s.theirs, true, Read(8)).result.Got?
       else Serve(s.mine, true, Write(8, b[s.a.phase])).result.Put?
  }

  function AfterWait(b: Batches, p: Player): (q: Player)
    requires Proper(b, p) && p.posted
    ensures Proper(b, q)
  {
    if p.waited + 1 < b[p.phase] then p.(waited := p.waited + 1) else Player(p.phase + 1, false, 0)
  }

  function StepA(b: Batches, s: State): State
    requires Proper(b, s.a) && Enabled(b, s)
  {
    if s.a.posted then
      s.(a := AfterWait(b, s.a), theirs := Serve(s.theirs, true, Read(8)).count)
    else
      s.(a := s.a.(posted := true), mine := Serve(s.mine, true, Write(8, b[s.a.phase])).count)
  }

  /** Either player may go, whenever its call does not block. */
  predicate Next(b: Batches, s: State, t: State) {
    && Proper(b, s.a) && Proper(b, s.b)
    && ((Enabled(b, s) && t == StepA(b, s)) || (Enabled(b, Swap(s)) && t == Swap(StepA(b, Swap(s)))))
  }

  // ---- accounting ----

  function Sum(b: Batches, n: nat): nat
    requires n <= |b|
  {
    if n == 0 then 0 else Sum(b, n - 1) + b[n - 1]
  }

  function Batch(b: Batches, i: int): nat {
    if 0 <= i < |b| then b[i] else 0
  }

  function Posted(b: Batches, p: Player): nat
    requires Proper(b, p)
  {
    Sum(b, p.phase) + if p.posted then b[p.phase] else 0
  }

  function Waited(b: Batches, p: Player): nat
    requires Proper(b, p)
  {
    Sum(b, p.phase) + p.waited
  }

  ghost predicate Inv(b: Batches, s: State) {
    && Proper(b, s.a) && Proper(b, s.b)
    && s.mine + Waited(b, s.b) == Posted(b, s.a)
    && s.theirs + Waited(b, s.a) == Posted(b, s.b)
  }

  lemma {:induction false} SumGrows(b: Batches, m: nat, n: nat)
    requires m <= n <= |b|
    ensures Sum(b, m) <= Sum(b, n)
    ensures m < n ==> Sum(b, m) + b[m] <= Sum(b, n)
    decreases n
  {
    if m < n {
      SumGrows(b, m, n - 1);
    }
  }

  lemma InvStep(b: Batches, s: State, t: State)
    requires Inv(b, s) && Next(b, s, t)
    ensures Inv(b, t)
  {
    if !(Enabled(b, s) && t == StepA(b, s)) {
      InvStepA(b, Swap(s));
    } else {
      InvStepA(b, s);
    }
  }

  lemma InvStepA(b: Batches, s: State)
    requires Inv(b, s) && Enabled(b, s)
    ensures Inv(b, StepA(b, s)) && Inv(b, Swap(StepA(b, s)))
  {
  }

  /** Neither player runs ahead: the waits of one are covered by the posts of the other. */
  lemma BehindBy(b: Batches, s: State)
    requires Inv(b, s)
    ensures s.a.phase <= s.b.phase + 1
  {
    if s.a.phase > s.b.phase + 1 {
      SumGrows(b, s.b.phase + 1, s.a.phase);
    }
  }

  lemma OnePhaseApart(b: Batches, s: State)
    requires Inv(b, s)
    ensures -1 <= s.a.phase - s.b.phase <= 1
  {
    BehindBy(b, s);
    BehindBy(b, Swap(s));
  }

  /** A counter never holds more than two consecutive batches. */
  lemma CounterBound(b: Batches, s: State)
    requires Inv(b, s)
    ensures s.mine <= Batch(b, s.a.phase - 1) + Batch(b, s.a.phase)
    ensures s.theirs <= Batch(b, s.b.phase - 1) + Batch(b, s.b.phase)
    ensures if |b| == 0 then s.mine == 0
      else (s.a.phase == 0 ==> s.mine <= b[0]) && (Finished(b, s.a) ==> s.mine <= b[|b| - 1])
  {
    OnePhaseApart(b, s);
    MineBound(b, s);
    MineBound(b, Swap(s));
  }

  lemma MineBound(b: Batches, s: State)
    requires Inv(b, s) && s.a.phase <= s.b.phase + 1
    ensures s.mine <= Batch(b, s.a.phase - 1) + Batch(b, s.a.phase)
  {
    if s.a.phase > 0 {
      SumGrows(b, s.a.phase - 1, s.b.phase);
    }
  }

  // ---- progress ----

  ghost predicate Stuck(b: Batches, s: State) {
    forall t :: !Next(b, s, t)
  }

  ghost predicate AllFinished(b: Batches, s: State) {
    Finished(b, s.a) && Finished(b, s.b)
  }

  /** A player that has not finished can go unless it is the one ahead. */
  lemma CanGo(b: Batches, s: State)
    requires Inv(b, s) && !Finished(b, s.a) && s.a.phase <= s.b.phase
    ensures Enabled(b, s) || Enabled(b, Swap(s))
  {
    CounterBound(b, s);
    if s.a.posted && s.a.phase < s.b.phase {
      SumGrows(b, s.a.phase, s.b.phase);
    }
  }

  lemma SomeoneCanGo(b: Batches, s: State)
    requires Inv(b, s) && !AllFinished(b, s)
    ensures Enabled(b, s) || Enabled(b, Swap(s))
  {
    hide Enabled, Posted, Waited, Sum;
    if s.a.phase <= s.b.phase && !Finished(b, s.a) {
      CanGo(b, s);
    } else {
      CanGo(b, Swap(s));
    }
  }

  /** No reachable state is stuck before both players are done. */
  lemma DeadlockFree(b: Batches, s: State)
    requires Inv(b, s)
    ensures AllFinished(b, s) <==> Stuck(b, s)
  {
    if !AllFinished(b, s) {
      SomeoneCanGo(b, s);
      if Enabled(b, s) {
        assert Next(b, s, StepA(b, s));
      } else {
        assert Next(b, s, Swap(StepA(b, Swap(s))));
      }
    }
  }

  /** When both are done every unit posted has been waited for. */
  lemma EmptyAtEnd(b: Batches, s: State)
    requires Inv(b, s) && AllFinished(b, s)
    ensures s.mine == 0 && s.theirs == 0
  {
  }

  // ---- whole runs ----

  /** Steps a player has made: one for each post and one for each wait. */
  function Made(b: Batches, p: Player): nat
    requires Proper(b, p)
  {
    p.phase + Sum(b, p.phase) + (if p.posted then 1 else 0) + p.waited
  }

  ghost predicate IsRun(b: Batches, run: seq<State>) {
    && |run| > 0 && run[0] == Init
    && forall i :: 0 < i < |run| ==> Next(b, run[i - 1], run[i])
  }

  lemma InitInv(b: Batches)
    ensures Inv(b, Init) && Made(b, Init.a) + Made(b, Init.b) == 0
  {
  }

  lemma {:induction false} RunKeepsInv(b: Batches, run: seq<State>, i: nat)
    requires IsRun(b, run) && i < |run|
    ensures Inv(b, run[i])
    ensures Made(b, run[i].a) + Made(b, run[i].b) == i
  {
    hide Next, Enabled, StepA, Made, Posted, Waited, Sum;
    if i == 0 {
      InitInv(b);
    } else {
      var s, t := run[i - 1], run[i];
      assert Next(b, s, t);
      RunKeepsInv(b, run, i - 1);
      MadeStep(b, s, t);
    }
  }

  lemma MadeStep(b: Batches, s: State, t: State)
    requires Inv(b, s) && Next(b, s, t)
    ensures Inv(b, t)
    ensures Made(b, t.a) + Made(b, t.b) == Made(b, s.a) + Made(b, s.b) + 1
  {
    InvStep(b, s, t);
    if Enabled(b, s) && t == StepA(b, s) {
      MadeStepA(b, s);
    } else {
      MadeStepA(b, Swap(s));
    }
  }

  lemma MadeStepA(b: Batches, s: State)
    requires Inv(b, s) && Enabled(b, s)
    ensures var t := StepA(b, s); Proper(b, t.a) && Made(b, t.a) == Made(b, s.a) + 1
  {
  }

  /**
   In every run the players stay within a batch of each other; a run that cannot go on has
   finished both with empty counters, and has exactly one step for each post and each wait.
   */
  lemma EveryRun(b: Batches, run: seq<State>)
    requires IsRun(b, run)
    ensures var s := run[|run| - 1];
      && -1 <= s.a.phase - s.b.phase <= 1
      && s.mine <= Batch(b, s.a.phase - 1) + Batch(b, s.a.phase)
      && s.theirs <= Batch(b, s.b.phase - 1) + Batch(b, s.b.phase)
      && |run| - 1 <= 2 * (|b| + Sum(b, |b|))
      && (Stuck(b, s) <==> |run| - 1 == 2 * (|b| + Sum(b, |b|)))
      && (Stuck(b, s) ==> AllFinished(b, s) && s.mine == 0 && s.theirs == 0)
  {
    hide Next, Stuck, Made, Posted, Waited, Sum;
    var s := run[|run| - 1];
    RunKeepsInv(b, run, |run| - 1);
    OnePhaseApart(b, s);
    CounterBound(b, s);
    DeadlockFree(b, s);
    MadeAtMost(b, s.a);
    MadeAtMost(b, s.b);
    if AllFinished(b, s) {
      EmptyAtEnd(b, s);
    }
  }

  lemma MadeAtMost(b: Batches, p: Player)
    requires Proper(b, p)
    ensures Made(b, p) <= |b| + Sum(b, |b|)
    ensures Made(b, p) == |b| + Sum(b, |b|) <==> Finished(b, p)
  {
    SumGrows(b, p.phase, |b|);
  }

  // ---- the two processes as objects sharing two counters ----

  class Process {
    const batches: Batches
    const posts: Counter
    const takes: Counter
    var at: Player

    constructor (batches: Batches, posts: Counter, takes: Counter)
      ensures this.batches == batches && this.posts == posts && this.takes == takes
      ensures at == Player(0, false, 0)
    {
      this.batches, this.posts, this.takes, at := batches, posts, takes, Player(0, false, 0);
    }

    method XsemWait() returns (ok: bool)
      requires takes.semaphore && takes.count > 0
      modifies takes
      ensures ok && takes.count == old(takes.count) - 1
    {
      var r := takes.Read(8);
      ok := r.Got?;
    }

    method XsemPost(count: nat) returns (ok: bool)
      requires posts.count + count <= WRITE_MAX
      modifies posts
      ensures ok && posts.count == old(posts.count) + count
    {
      var r := posts.Write(8, count);
      ok := r.Put?;
    }

    /** The next call of sem_player, when it would not block. */
    method Go(ghost other: Process)
      requires posts != takes && posts.semaphore && takes.semaphore
      requires other.posts == takes && other.takes == posts && other.batches == batches && other != this
      requires Inv(batches, View(this, other)) && Enabled(batches, View(this, other))
      modifies this, posts, takes
      ensures View(this, other) == StepA(batches, old(View(this, other)))
    {
      if at.posted {
        var ok := XsemWait();
        at := AfterWait(batches, at);
      } else {
        var ok := XsemPost(batches[at.phase]);
        at := at.(posted := true);
      }
    }
  }

  /** The two processes and their counters as one state, from p's side. */
  ghost function View(p: Process, q: Process): State
    reads p, q, p.posts, p.takes
  {
    State(p.at, q.at, p.posts.count, p.takes.count)
  }

  /** Whether the next call returns without blocking. */
  predicate Runnable(p: Process)
    requires Proper(p.batches, p.at)
    reads p, p.posts, p.takes
  {
    p.at.phase < |p.batches| &&
    if p.at.posted then p.takes.count > 0 else p.posts.count <= WRITE_MAX - p.batches[p.at.phase]
  }

  lemma RunnableIsEnabled(p: Process, q: Process)
    requires Proper(p.batches, p.at)
    ensures Runnable(p) <==> Enabled(p.batches, View(p, q))
  {
  }

  /** Both processes, scheduled in any order, run to the end and leave the counters empty. */
  method Play(batches: Batches) returns (fd1: Counter, fd2: Counter)
    ensures fresh(fd1) && fresh(fd2) && fd1.count == 0 && fd2.count == 0
  {
    hide Enabled, StepA, Made, Posted, Waited, Sum;
    fd1 := new Counter(0, true);
    fd2 := new Counter(0, true);
    var poster := new Process(batches, fd1, fd2);
    var waiter := new Process(batches, fd2, fd1);
    InitInv(batches);
    assert View(poster, waiter) == Init;
    while poster.at.phase < |batches| || waiter.at.phase < |batches|
      invariant fresh(fd1) && fresh(fd2) && fresh(poster) && fresh(waiter)
      invariant Inv(batches, View(poster, waiter))
      decreases 2 * (|batches| + Sum(batches, |batches|)) - Made(batches, poster.at) - Made(batches, waiter.at)
    {
      ghost var s := View(poster, waiter);
      SomeoneCanGo(batches, s);
      RunnableIsEnabled(poster, waiter);
      RunnableIsEnabled(waiter, poster);
      MadeAtMost(batches, poster.at);
      MadeAtMost(batches, waiter.at);
      if
      case Runnable(poster) =>
        poster.Go(waiter);
        MadeStep(batches, s, View(poster, waiter));
      case Runnable(waiter) =>
        waiter.Go(poster);
        MadeStep(batches, s, View(poster, waiter));
    }
    EmptyAtEnd(batches, View(poster, waiter));
  }

  /** The batches sem_player posts. */
  method Run()
  {
    var fd1, fd2 := Play([1, 1, 5]);
    assert fd1.count == fd2.count == 0;
  }
}
