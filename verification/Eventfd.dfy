/**
 The 64-bit counter behind an eventfd, as eventfd01.c drives it without blocking, and what
 every run of reads, writes and kernel-side increments conserves.
 */
module Eventfd {
  import opened Words

  /** The largest value write(2) may leave in the counter. */
  const WRITE_MAX: U64 := 0xffff_ffff_ffff_fffe
  const COUNT_MAX: U64 := 0xffff_ffff_ffff_ffff

  /** Signal is an increment made by the kernel itself; it cannot block, so it saturates. */
  datatype Op = Read(size: nat) | Write(size: nat, val: U64) | Signal(n: U64)

  /** A signal reports how much of it was added. */
  datatype Result = Got(val: U64) | Put(val: U64) | Eagain | Einval

  datatype Answer = Answer(count: U64, result: Result)

  /** One operation on a counter; a semaphore hands out one unit a read. */
  function Serve(count: U64, semaphore: bool, op: Op): Answer {
    match op
    case Read(size) =>
      if size < 8 then Answer(count, Einval)
      else if count == 0 then Answer(count, Eagain)
      else if semaphore then Answer(count - 1, Got(1))
      else Answer(0, Got(count))
    case Write(size, val) =>
      if size < 8 || val == COUNT_MAX then Answer(count, Einval)
      else if count > WRITE_MAX - val then Answer(count, Eagain)
      else Answer(count + val, Put(val))
    case Signal(n) =>
      var added := Min(n, COUNT_MAX - count);
      Answer(count + added, Put(added))
  }

  /** A refused operation changes nothing, and these are all that are refused. */
  lemma Refusals(count: U64, semaphore: bool, op: Op)
    ensures var a := Serve(count, semaphore, op);
      && (a.result.Eagain? || a.result.Einval? ==> a.count == count)
      && (a.result.Einval? <==> (op.Read? && op.size < 8) || (op.Write? && (op.size < 8 || op.val == COUNT_MAX)))
      && (a.result.Eagain? <==>
            (op.Read? && op.size >= 8 && count == 0)
            || (op.Write? && op.size >= 8 && op.val < COUNT_MAX && count + op.val >= COUNT_MAX))
  {
  }

  /** What is handed out leaves the counter, what is put in enters it, and how much that is. */
  lemma Transfers(count: U64, semaphore: bool, op: Op)
    ensures var a := Serve(count, semaphore, op);
      && (a.result.Got? ==> op.Read? && a.count + a.result.val == count && a.result.val > 0)
      && (a.result.Got? ==> if semaphore then a.result.val == 1 else a.count == 0)
      && (a.result.Put? ==> !op.Read? && a.count == count + a.result.val)
      && (op.Write? && a.result.Put? ==> a.result.val == op.val)
      && (op.Signal? ==> a.result.Put? && a.result.val <= op.n && (a.result.val < op.n ==> a.count == COUNT_MAX))
  {
  }

  function Readable(count: U64): bool {
    count > 0
  }

  function Writable(count: U64): bool {
    count < WRITE_MAX
  }

  function Overflowed(count: U64): bool {
    count == COUNT_MAX
  }

  // ---- runs ----

  function Final(count: U64, semaphore: bool, ops: seq<Op>): U64
    decreases |ops|
  {
    if ops == [] then count
    else Final(Serve(count, semaphore, ops[0]).count, semaphore, ops[1..])
  }

  function Results(count: U64, semaphore: bool, ops: seq<Op>): (r: seq<Result>)
    ensures |r| == |ops|
    decreases |ops|
  {
    if ops == [] then []
    else
      var a := Serve(count, semaphore, ops[0]);
      [a.result] + Results(a.count, semaphore, ops[1..])
  }

  /** The total put in, read off the answers alone. */
  function Given(results: seq<Result>): nat {
    if results == [] then 0
    else (if results[0].Put? then results[0].val else 0) + Given(results[1..])
  }

  /** The total handed out by reads. */
  function Taken(results: seq<Result>): nat {
    if results == [] then 0
    else (if results[0].Got? then results[0].val else 0) + Taken(results[1..])
  }

  predicate UserOnly(ops: seq<Op>) {
    forall i :: 0 <= i < |ops| ==> !ops[i].Signal?
  }

  /** In every run nothing put in is lost and nothing is read twice. */
  lemma {:induction false} Conservation(count: U64, semaphore: bool, ops: seq<Op>)
    ensures var r := Results(count, semaphore, ops);
      count + Given(r) == Final(count, semaphore, ops) + Taken(r)
    decreases |ops|
  {
    if ops != [] {
      var a := Serve(count, semaphore, ops[0]);
      Conservation(a.count, semaphore, ops[1..]);
      var r := Results(count, semaphore, ops);
      assert r[1..] == Results(a.count, semaphore, ops[1..]);
    }
  }

  /** Answer i of any run is that of the counter the first i operations leave. */
  lemma {:induction false} AnswerAt(count: U64, semaphore: bool, ops: seq<Op>, i: nat)
    requires i < |ops|
    ensures var c := Final(count, semaphore, ops[..i]);
      && Results(count, semaphore, ops)[i] == Serve(c, semaphore, ops[i]).result
      && Final(count, semaphore, ops[..i + 1]) == Serve(c, semaphore, ops[i]).count
    decreases i
  {
    var a := Serve(count, semaphore, ops[0]);
    if i > 0 {
      AnswerAt(a.count, semaphore, ops[1..], i - 1);
      assert ops[..i][1..] == ops[1..][..i - 1];
      assert ops[..i + 1][1..] == ops[1..][..i];
    } else {
      assert ops[..1][1..] == [];
    }
  }

  /**
   Without kernel increments the counter never passes 2^64 - 2, and a full-size write of an
   acceptable value is refused exactly when it would.
   */
  lemma {:induction false} UserRunsStayBelow(count: U64, semaphore: bool, ops: seq<Op>, i: nat)
    requires UserOnly(ops) && count <= WRITE_MAX && i <= |ops|
    ensures var c := Final(count, semaphore, ops[..i]);
      && c <= WRITE_MAX
      && (i < |ops| ==> Results(count, semaphore, ops)[i] == Serve(c, semaphore, ops[i]).result)
      && (i < |ops| && ops[i].Write? && ops[i].size >= 8 && ops[i].val != COUNT_MAX ==>
            (Results(count, semaphore, ops)[i] == Eagain <==> c + ops[i].val > WRITE_MAX))
    decreases i
  {
    if i > 0 {
      var a := Serve(count, semaphore, ops[0]);
      UserRunsStayBelow(a.count, semaphore, ops[1..], i - 1);
      assert ops[..i][1..] == ops[1..][..i - 1];
    }
  }

  // ---- the descriptor as an object ----

  class Counter {
    const semaphore: bool
    var count: U64

    constructor (initval: U32, semaphore: bool)
      ensures count == initval && this.semaphore == semaphore
    {
      count, this.semaphore := initval, semaphore;
    }

    method Read(size: nat) returns (r: Result)
      modifies this
      ensures Answer(count, r) == Serve(old(count), semaphore, Op.Read(size))
    {
      if size < 8 {
        return Einval;
      }
      if count == 0 {
        return Eagain;
      }
      if semaphore {
        count := count - 1;
        r := Got(1);
      } else {
        r := Got(count);
        count := 0;
      }
    }

    method Write(size: nat, val: U64) returns (r: Result)
      modifies this
      ensures Answer(count, r) == Serve(old(count), semaphore, Op.Write(size, val))
    {
      if size < 8 || val == COUNT_MAX {
        return Einval;
      }
      if count > WRITE_MAX - val {
        return Eagain;
      }
      count := count + val;
      r := Put(val);
    }

    method Signal(n: U64)
      modifies this
      ensures count == Serve(old(count), semaphore, Op.Signal(n)).count
    {
      count := if COUNT_MAX - count < n then COUNT_MAX else count + n;
    }

    /** True for success, as for a return of 0. */
    method ClearCounter() returns (ok: bool)
      modifies this
      ensures ok
      ensures count == if !semaphore || old(count) == 0 then 0 else old(count) - 1
    {
      var r := Read(8);
      ok := r.Got? || r == Eagain;
    }

    /** Succeeds exactly for the values a write accepts; the old value does not matter. */
    method SetCounter(val: U64) returns (ok: bool)
      requires !semaphore
      modifies this
      ensures ok <==> val != COUNT_MAX
      ensures count == if ok then val else 0
    {
      ok := ClearCounter();
      if ok {
        var r := Write(8, val);
        ok := r.Put?;
      }
    }

    method ReadTest(required: U64) returns (pass: bool)
      requires !semaphore
      modifies this
      ensures pass <==> old(count) == required && required != 0
      ensures count == 0
    {
      var r := Read(8);
      pass := r == Got(required);
    }

    method ReadEagainTest() returns (pass: bool)
      requires !semaphore
      modifies this
      ensures pass && count == 0
    {
      var ok := ClearCounter();
      var r := Read(8);
      pass := r == Eagain;
    }

    method WriteTest() returns (pass: bool)
      requires !semaphore
      modifies this
      ensures pass && count == 0
    {
      pass := SetCounter(12);
      if pass {
        pass := ReadTest(12);
      }
    }

    method WriteEagainTest() returns (pass: bool)
      requires !semaphore
      modifies this
      ensures pass && count == WRITE_MAX
    {
      pass := SetCounter(WRITE_MAX);
      if pass {
        var r := Write(8, 1);
        pass := r == Eagain;
      }
    }

    /** One kernel increment from the largest writable value overflows, whatever came before. */
    method TriggerOverflow() returns (ok: bool)
      requires !semaphore
      modifies this
      ensures ok && count == COUNT_MAX
      ensures Overflowed(count) && Readable(count) && !Writable(count)
    {
      ok := SetCounter(COUNT_MAX - 1);
      if ok {
        Signal(1);
      }
    }
  }

  /** Short buffers and the one value that cannot be written, from every counter value. */
  method EinvalTests(c: Counter) returns (pass: bool)
    requires !c.semaphore
    modifies c
    ensures pass && c.count == 0
  {
    var shortRead := c.Read(4);
    var shortWrite := c.Write(4, 0);
    var ok := c.ClearCounter();
    var tooBig := c.Write(8, COUNT_MAX);
    pass := shortRead == Einval && shortWrite == Einval && ok && tooBig == Einval;
  }

  /** The four tests with select, in the order they run. */
  method SelectTests(c: Counter) returns (pass: bool)
    requires !c.semaphore
    modifies c
    ensures pass
  {
    var ok := c.SetCounter(10);
    var readSet := ok && Readable(c.count);
    ok := c.ClearCounter();
    var readNotSet := ok && !Readable(c.count);
    ok := c.SetCounter(10);
    var writeSet := ok && Writable(c.count);
    ok := c.SetCounter(COUNT_MAX - 1);
    var writeNotSet := ok && !Writable(c.count);
    pass := readSet && readNotSet && writeSet && writeNotSet;
  }

  /** After each overflow: select finds the descriptor readable, poll an error, read the maximum. */
  method OverflowTests(c: Counter) returns (pass: bool)
    requires !c.semaphore
    modifies c
    ensures pass && c.count == 0
  {
    var ok := c.TriggerOverflow();
    var selected := ok && Readable(c.count);
    ok := c.TriggerOverflow();
    var polled := ok && Overflowed(c.count);
    ok := c.TriggerOverflow();
    var r := c.Read(8);
    pass := selected && polled && ok && r == Got(COUNT_MAX);
  }

  /** Readable means a read would hand something out; writable, that a unit would be accepted. */
  lemma PollMeansProgress(count: U64, semaphore: bool)
    ensures Readable(count) <==> Serve(count, semaphore, Read(8)).result.Got?
    ensures Writable(count) <==> Serve(count, semaphore, Write(8, 1)).result.Put?
    ensures Overflowed(count) ==> Serve(count, false, Read(8)) == Answer(0, Got(COUNT_MAX))
    ensures Overflowed(count) <==> count > WRITE_MAX
  {
  }

  /** The counter overflows only when the kernel adds to it. */
  lemma OverflowNeedsSignal(count: U64, semaphore: bool, ops: seq<Op>)
    requires count <= WRITE_MAX
    ensures Overflowed(Final(count, semaphore, ops)) ==> exists i :: 0 <= i < |ops| && ops[i].Signal?
  {
    assert ops[..|ops|] == ops;
    if UserOnly(ops) {
      UserRunsStayBelow(count, semaphore, ops, |ops|);
    }
  }
}
