/**
 Walking fanotify events: the info records inside one event (get_event_info of fanotify.h)
 and the events of a buffer that is refilled from the descriptor (fetch_event of
 fanotify10.c).  Both walk bytes by the lengths stored in them.
 */
module FanotifyBuffer {
  import opened Pieces
  import opened Options
  import opened Words

  /** sizeof(struct fanotify_event_metadata) and of the header of an info record. */
  const METADATA_LEN := 24
  const HEADER_LEN := 4

  // ---- info records ----

  /** A record as the kernel writes it: type, padding, total length, contents. */
  datatype Record = Record(infoType: Byte, pad: Byte, body: seq<Byte>)

  type Records = r: seq<Record> | forall i :: 0 <= i < |r| ==> |r[i].body| < 0x1_0000 - HEADER_LEN

  function RecordBytes(r: Record): (b: seq<Byte>)
    requires |r.body| < 0x1_0000 - HEADER_LEN
    ensures |b| == HEADER_LEN + |r.body|
    ensures b[0] == r.infoType && FromLe2(b[2..4]) == |b| && b[HEADER_LEN..] == r.body
  {
    var b := [r.infoType, r.pad] + Le2(HEADER_LEN + |r.body|) + r.body;
    assert b[2..4] == Le2(HEADER_LEN + |r.body|);
    b
  }

  function Tiles(r: Records): (p: Pieces)
    ensures |p| == |r|
    ensures forall i :: 0 <= i < |r| ==> p[i] == RecordBytes(r[i])
  {
    seq(|r|, i requires 0 <= i < |r| => RecordBytes(r[i]))
  }

  /** The metadata in front says how long it is itself and how long the whole event is. */
  ghost predicate IsEvent(e: seq<Byte>, metadata: nat, r: Records) {
    && 8 <= metadata <= |e| && e[metadata..] == Flat(Tiles(r))
    && FromLe4(e[..4]) == |e| && FromLe2(e[6..8]) == metadata
  }

  function FirstOf(r: seq<Record>, infoType: Byte): (k: Option<nat>)
    ensures k.Some? ==> k.value < |r| && r[k.value].infoType == infoType
    ensures k.Some? ==> forall i :: 0 <= i < k.value ==> r[i].infoType != infoType
    ensures k.None? ==> forall i :: 0 <= i < |r| ==> r[i].infoType != infoType
  {
    if r == [] then None
    else
      var n := |r| - 1;
      var k := FirstOf(r[..n], infoType);
      if k.Some? then k else if r[n].infoType == infoType then Some(n) else None
  }

  /** Where the first record of a type begins. */
  ghost function Located(metadata: nat, r: Records, infoType: Byte): Option<nat> {
    match FirstOf(r, infoType)
    case Some(k) => Some(metadata + Offset(Tiles(r), k))
    case None => None
  }

  /** The only record of the type asked for is the last one and is nothing but a header. */
  predicate BareLast(r: seq<Record>, infoType: Byte) {
    FirstOf(r, infoType) == Some(|r| - 1) && r[|r| - 1].body == []
  }

  /**
   The loop runs while a whole header lies strictly before the end of the event.  On any
   tiled event it terminates and finds the first record of the type, except that it passes
   over a last record that consists of its header alone.
   */
  method GetEventInfo(e: seq<Byte>, ghost metadata: nat, ghost r: Records, infoType: Byte) returns (hdr: Option<nat>)
    requires IsEvent(e, metadata, r)
    ensures hdr == if BareLast(r, infoType) then None else Located(metadata, r, infoType)
  {
    hide Offset, Flat, Tiles, FirstOf, BareLast, Located, FromLe2, FromLe4;
    var eventLen: nat, off: nat := FromLe4(e[..4]), FromLe2(e[6..8]);
    ghost var k := 0;
    NothingBefore(Tiles(r));
    while off + HEADER_LEN < eventLen
      invariant k <= |r| && off == metadata + Offset(Tiles(r), k)
      invariant NoneBefore(r, infoType, k)
      decreases |e| - off
    {
      WalkEnd(e, metadata, r, infoType, k);
      HeaderAt(e, metadata, r, k);
      if e[off] == infoType {
        return Some(off);
      }
      off := off + FromLe2(e[off + 2..off + 4]);
      k := k + 1;
    }
    WalkEnd(e, metadata, r, infoType, k);
    hdr := None;
  }

  /** Where the walk ends, and what it has found by then. */
  lemma WalkEnd(e: seq<Byte>, metadata: nat, r: Records, infoType: Byte, k: nat)
    requires IsEvent(e, metadata, r) && k <= |r| && NoneBefore(r, infoType, k)
    ensures var off := metadata + Offset(Tiles(r), k);
      var found := if BareLast(r, infoType) then None else Located(metadata, r, infoType);
      if off + HEADER_LEN < |e| then k < |r| && (r[k].infoType == infoType ==> found == Some(off))
      else found == None
  {
    AllTiles(e, metadata, r);
    Decides(r, infoType, k);
    if k < |r| {
      LastHeader(e, metadata, r, k);
    }
  }

  ghost predicate NoneBefore(r: seq<Record>, infoType: Byte, k: nat) {
    forall i :: 0 <= i < k && i < |r| ==> r[i].infoType != infoType
  }

  lemma Decides(r: seq<Record>, infoType: Byte, k: nat)
    requires NoneBefore(r, infoType, k)
    ensures k < |r| && r[k].infoType == infoType ==> FirstOf(r, infoType) == Some(k)
    ensures k >= |r| ==> FirstOf(r, infoType) == None
    ensures k == |r| - 1 && r[k].infoType != infoType ==> FirstOf(r, infoType) == None
  {
  }

  lemma AllTiles(e: seq<Byte>, metadata: nat, r: Records)
    requires IsEvent(e, metadata, r)
    ensures metadata + Offset(Tiles(r), |r|) == |e|
  {
    assert Tiles(r)[..|r|] == Tiles(r);
  }

  /** The bytes at the start of tile k are its header. */
  lemma HeaderAt(e: seq<Byte>, metadata: nat, r: Records, k: nat)
    requires IsEvent(e, metadata, r) && k < |r|
    ensures var off := metadata + Offset(Tiles(r), k);
      && off + HEADER_LEN + |r[k].body| == metadata + Offset(Tiles(r), k + 1) <= |e|
      && e[off] == r[k].infoType && FromLe2(e[off + 2..off + 4]) == HEADER_LEN + |r[k].body|
  {
    hide Offset, Flat, FromLe2, FromLe4;
    var p := Tiles(r);
    FlatAt(p, k);
    var o, t := Offset(p, k), RecordBytes(r[k]);
    assert e[metadata..|e|] == Flat(p);
    SliceOfSlice(e, metadata, |e|, o, o + |t|);
    HeaderOf(e, metadata + o, t);
  }

  lemma HeaderOf(e: seq<Byte>, off: nat, t: seq<Byte>)
    requires |t| >= HEADER_LEN && off + |t| <= |e| && e[off..off + |t|] == t
    ensures e[off] == t[0] && e[off + 2..off + 4] == t[2..4]
  {
    SliceOfSlice(e, off, off + |t|, 2, 4);
    assert e[off] == e[off..off + |t|][0];
  }

  /** The walk's test stops short of a tile only if it is the last and a bare header. */
  lemma LastHeader(e: seq<Byte>, metadata: nat, r: Records, k: nat)
    requires IsEvent(e, metadata, r) && k < |r|
    ensures metadata + Offset(Tiles(r), k) + HEADER_LEN >= |e| <==> k == |r| - 1 && r[k].body == []
  {
    AllTiles(e, metadata, r);
    FlatAt(Tiles(r), k);
    if k + 1 < |r| {
      FlatAt(Tiles(r), k + 1);
    }
  }

  /** The exception is real: one bare record of type 2 in a 28-byte event is not found. */
  lemma BareLastIsMissed()
    ensures var r := [Record(2, 0, [])];
      var e := Le4(28) + [3, 0] + Le2(24) + seq(16, _ => 0) + RecordBytes(r[0]);
      IsEvent(e, METADATA_LEN, r) && BareLast(r, 2) && FirstOf(r, 2) == Some(0)
  {
    var r: Records := [Record(2, 0, [])];
    var e := Le4(28) + [3, 0] + Le2(24) + seq(16, _ => 0) + RecordBytes(r[0]);
    Le4RoundTrip(28);
    assert e[..4] == Le4(28);
    assert e[6..8] == Le2(24);
    assert Tiles(r) == [RecordBytes(r[0])];
    FlatSplit([], RecordBytes(r[0]), []);
    assert [] + [RecordBytes(r[0])] == Tiles(r);
    assert e[24..] == RecordBytes(r[0]);
  }

  // ---- the refilled buffer ----

  /** An event says its own length in its first word and is no shorter than the metadata. */
  predicate IsWhole(ev: seq<Byte>) {
    |ev| >= METADATA_LEN && |ev| < 0x1_0000_0000 && FromLe4(ev[..4]) == |ev|
  }

  type Batch = b: Pieces | forall i :: 0 <= i < |b| ==> IsWhole(b[i]) ghost witness []

  /** Everything waiting to be read: one non-empty batch of whole events for each read. */
  ghost predicate Ready(stream: seq<Batch>, room: nat) {
    forall i :: 0 <= i < |stream| ==> stream[i] != [] && |Flat(stream[i])| <= room
  }

  ghost function Queued(stream: seq<Batch>): seq<seq<Byte>> {
    if stream == [] then [] else stream[0] + Queued(stream[1..])
  }

  /** The events a loop sees that stops behind the first bad one. */
  function Inspected(good: seq<Byte> -> bool, events: seq<seq<Byte>>): seq<seq<Byte>> {
    if events == [] then []
    else [events[0]] + if good(events[0]) then Inspected(good, events[1..]) else []
  }

  lemma InspectStep(good: seq<Byte> -> bool, seen: seq<seq<Byte>>, events: seq<seq<Byte>>)
    ensures seen + Inspected(good, events) ==
      if events == [] then seen
      else (seen + [events[0]]) + if good(events[0]) then Inspected(good, events[1..]) else []
  {
  }

  /** They are the first events, all good but the last, which is bad unless nothing is left out. */
  lemma {:induction false} InspectedExactly(good: seq<Byte> -> bool, events: seq<seq<Byte>>)
    ensures var r := Inspected(good, events);
      && r <= events
      && (forall i :: 0 <= i < |r| - 1 ==> good(r[i]))
      && (r == events || (r != [] && !good(r[|r| - 1])))
  {
    if events != [] {
      InspectedExactly(good, events[1..]);
      assert events == [events[0]] + events[1..];
    }
  }

  /** The buffer, its position and its length, over a non-blocking descriptor. */
  class Reader {
    ghost var stream: seq<Batch>
    var chunks: seq<seq<Byte>>
    var buf: seq<Byte>
    var pos: nat
    var len: nat
    ghost var batch: Batch
    ghost var next: nat

    ghost predicate Valid()
      reads this
    {
      && Ready(stream, |buf|) && |chunks| == |stream|
      && (forall i :: 0 <= i < |stream| ==> chunks[i] == Flat(stream[i]))
      && len <= |buf| && buf[..len] == Flat(batch)
      && next <= |batch| && pos == Offset(batch, next)
    }

    /** The events still to be returned before the first NULL. */
    ghost function Pending(): seq<seq<Byte>>
      requires Valid()
      reads this
    {
      batch[next..] + Queued(stream)
    }

    /** event_buf_pos = event_buf_len = 0, with chunks waiting in the descriptor. */
    constructor (ghost stream: seq<Batch>, chunks: seq<seq<Byte>>, buf: seq<Byte>)
      requires Ready(stream, |buf|) && |chunks| == |stream|
      requires forall i :: 0 <= i < |stream| ==> chunks[i] == Flat(stream[i])
      ensures Valid() && Pending() == Queued(stream)
      ensures this.stream == stream && batch == [] && len == 0
    {
      this.stream, this.chunks, this.buf, this.pos, this.len := stream, chunks, buf, 0, 0;
      this.batch, this.next := [], 0;
    }

    /** Reads the next chunk over the start of the buffer. */
    method Refill()
      requires Valid() && pos >= len && chunks != []
      modifies this
      ensures Valid() && Pending() == old(Pending()) && next < |batch|
      ensures old(stream) != [] && batch == old(stream[0]) && stream == old(stream[1..])
    {
      hide Offset, Flat, IsWhole;
      NothingBefore(stream[0]);
      AtBatchEnd(batch, next);
      var chunk := chunks[0];
      buf := chunk + buf[|chunk|..];
      pos, len := 0, |chunk|;
      batch, next := stream[0], 0;
      assert buf[..len] == chunk;
      chunks, stream := chunks[1..], stream[1..];
    }

    /**
     Until the events run out, the calls return them one by one in order.  The call that
     finds nothing rewinds the position but keeps the old length, so that events are left
     to return again unless the length is zero.
     */
    method FetchEvent() returns (event: Option<seq<Byte>>)
      requires Valid()
      modifies this
      ensures Valid()
      ensures old(Pending()) != [] ==> event == Some(old(Pending())[0]) && Pending() == old(Pending())[1..]
      ensures old(Pending()) != [] ==> if old(next < |batch|) then batch == old(batch)
        else old(stream) != [] && batch == old(stream[0])
      ensures old(Pending()) == [] ==> event == None && Pending() == batch && batch == old(batch)
      ensures old(Pending()) == [] ==> len == old(len) && (Pending() == [] <==> len == 0)
    {
      hide Offset, Flat, IsWhole, Ready;
      AtBatchEnd(batch, next);
      BatchHasBytes(batch);
      NothingBefore(batch);
      if pos >= len {
        if chunks == [] {
          pos, next := 0, 0;
          return None;
        }
        Refill();
      }
      var ev := TakeNext();
      event := Some(ev);
    }

    /** The event at the position, which moves past it. */
    method TakeNext() returns (event: seq<Byte>)
      requires Valid() && next < |batch|
      modifies this`pos, this`next
      ensures Valid() && event == old(Pending())[0] && Pending() == old(Pending())[1..]
    {
      hide Offset, Flat, IsWhole, Ready, Queued, FromLe4;
      EventAt(buf, len, batch, next);
      var eventLen := FromLe4(buf[pos..pos + 4]);
      event := buf[pos..pos + eventLen];
      pos, next := pos + eventLen, next + 1;
    }

    /** When the events have run out, the call after the first NULL is NULL too just if nothing was ever read. */
    method FetchPastEnd() returns (first: Option<seq<Byte>>, second: Option<seq<Byte>>)
      requires Valid() && Pending() == []
      modifies this
      ensures Valid() && first == None
      ensures second == None <==> old(len) == 0
    {
      first := FetchEvent();
      second := FetchEvent();
    }

    /**
     The counting loop of the test, with any verdicts on the events: up to and including the
     first bad one every queued event is counted once, in order.
     */
    method CountEvents(verifyEvent: seq<Byte> -> bool) returns (eventCount: nat, ghost seen: seq<seq<Byte>>)
      requires Valid() && len == 0
      modifies this
      ensures Valid() && seen == Inspected(verifyEvent, old(Queued(stream))) && eventCount == |seen|
    {
      hide Offset, Flat, IsWhole, Ready, Queued, Inspected;
      BatchHasBytes(batch);
      ghost var all := Pending();
      assert all == Queued(stream);
      eventCount, seen := 0, [];
      var more := true;
      while more
        invariant Valid() && eventCount == |seen|
        invariant seen + (if more then Inspected(verifyEvent, Pending()) else []) == Inspected(verifyEvent, all)
        decreases if more then |Pending()| + 1 else 0
      {
        InspectStep(verifyEvent, seen, Pending());
        var event := FetchEvent();
        if event.None? {
          more := false;
        } else {
          eventCount, seen := eventCount + 1, seen + [event.value];
          if !verifyEvent(event.value) {
            more := false;
          }
        }
      }
    }
  }

  lemma SingleEvent(ev: seq<Byte>, room: nat)
    requires IsWhole(ev) && |ev| <= room
    ensures var batch: Batch := [ev]; Flat(batch) == ev && Ready([batch], room) && Queued([batch]) == [ev]
  {
    var batch: Batch := [ev];
    FlatSplit([], ev, []);
    assert [] + [ev] == batch;
  }

  /** A single queued event comes back after the NULL. */
  method StaleEvent(ev: seq<Byte>, buf: seq<Byte>)
    returns (first: Option<seq<Byte>>, second: Option<seq<Byte>>, third: Option<seq<Byte>>)
    requires IsWhole(ev) && |ev| <= |buf|
    ensures first == Some(ev) && second == None && third == Some(ev)
  {
    hide Offset, Flat, IsWhole, Ready;
    SingleEvent(ev, |buf|);
    ghost var batch: Batch := [ev];
    var reader := new Reader([batch], [ev], buf);
    first := reader.FetchEvent();
    second := reader.FetchEvent();
    third := reader.FetchEvent();
  }

  /** Bare metadata is such an event. */
  lemma BareMetadata()
    ensures IsWhole(Le4(METADATA_LEN) + seq(20, _ => 0))
  {
    Le4RoundTrip(METADATA_LEN);
    assert (Le4(METADATA_LEN) + seq(20, _ => 0))[..4] == Le4(METADATA_LEN);
  }

  lemma NothingBefore(p: Pieces)
    ensures Offset(p, 0) == 0
  {
  }

  lemma BatchHasBytes(batch: Batch)
    ensures batch != [] ==> |Flat(batch)| >= METADATA_LEN
  {
    if batch != [] {
      FlatAt(batch, 0);
      assert IsWhole(batch[0]);
    }
  }

  /** The position reaches the length exactly when the batch is used up. */
  lemma AtBatchEnd(batch: Batch, next: nat)
    requires next <= |batch|
    ensures Offset(batch, next) >= |Flat(batch)| <==> next == |batch|
  {
    assert batch[..|batch|] == batch;
    if next < |batch| {
      FlatAt(batch, next);
      assert IsWhole(batch[next]);
    }
  }

  /** The bytes at the position are the next event, and its first word is its length. */
  lemma EventAt(buf: seq<Byte>, len: nat, batch: Batch, next: nat)
    requires len <= |buf| && buf[..len] == Flat(batch) && next < |batch|
    ensures var pos := Offset(batch, next); var n := |batch[next]|;
      && Offset(batch, next + 1) == pos + n <= len && n >= METADATA_LEN
      && buf[pos..pos + n] == batch[next] && FromLe4(buf[pos..pos + 4]) == n
  {
    FlatAt(batch, next);
    assert IsWhole(batch[next]);
    InPrefix(buf, Flat(batch), Offset(batch, next), batch[next]);
  }

  lemma InPrefix(buf: seq<Byte>, flat: seq<Byte>, pos: nat, ev: seq<Byte>)
    requires flat <= buf && pos + |ev| <= |flat| && flat[pos..pos + |ev|] == ev && |ev| >= 4
    ensures buf[pos..pos + |ev|] == ev && buf[pos..pos + 4] == ev[..4]
  {
    assert forall i :: 0 <= i < |ev| ==> buf[pos + i] == flat[pos + i] == flat[pos..pos + |ev|][i] == ev[i];
  }
}
