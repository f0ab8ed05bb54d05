// Temporal-contrast raw data: the walk over its timeslices and the layout it expects.
//
// The buffer is a sequence of bytes, and its numbers are little-endian, as on the machines the SDK
// runs on. A read outside of the buffer would not verify, so every function and method here reads
// inside of it.
module TemporalContrast {
  import opened Wrappers

  type Octet = n: nat | n < 0x100

  const DATA_HEADER := 16
  const TIMESLICE_HEADER := 24
  const EVENT_SIZE := 6

  datatype Event = Event(x: nat, y: nat, polarity: int, reserved: nat)

  datatype Timeslice = Timeslice(timestamp: nat, events: seq<Event>)

  // ---- Numbers ----

  function Unsigned(bytes: seq<Octet>): nat {
    if bytes == [] then 0 else bytes[0] + 0x100 * Unsigned(bytes[1..])
  }

  function Signed8(b: Octet): int {
    if b < 0x80 then b else b - 0x100
  }

  function Span(width: nat): nat {
    if width == 0 then 1 else 0x100 * Span(width - 1)
  }

  function LittleEndian(n: nat, width: nat): (bytes: seq<Octet>)
    ensures |bytes| == width
  {
    if width == 0 then [] else [n % 0x100] + LittleEndian(n / 0x100, width - 1)
  }

  lemma {:induction false} ReadWritten(n: nat, width: nat)
    requires n < Span(width)
    ensures Unsigned(LittleEndian(n, width)) == n
  {
    if width > 0 {
      Quotient(n, Span(width - 1));
      ReadWritten(n / 0x100, width - 1);
    }
  }

  lemma Quotient(n: nat, span: nat)
    requires n < 0x100 * span
    ensures n / 0x100 < span
  {
  }

  lemma Spans()
    ensures Span(2) == 0x1_0000 && Span(4) == 0x1_0000_0000 && Span(8) == 0x1_0000_0000_0000_0000
  {
    assert Span(4) == 0x100 * Span(3) == 0x1_0000 * Span(2);
    assert Span(8) == 0x100 * Span(7) == 0x1_0000 * Span(6) == 0x100_0000 * Span(5);
  }

  // ---- Reading ----

  function EventAt(buffer: seq<Octet>, at: nat): Event
    requires at + EVENT_SIZE <= |buffer|
  {
    Event(Unsigned(buffer[at..at + 2]), Unsigned(buffer[at + 2..at + 4]), Signed8(buffer[at + 4]), buffer[at + 5])
  }

  function EventsAt(buffer: seq<Octet>, at: nat, count: nat): (events: seq<Event>)
    requires at + EVENT_SIZE * count <= |buffer|
    ensures |events| == count
  {
    seq(count, i requires 0 <= i < count => EventAt(buffer, at + EVENT_SIZE * i))
  }

  function CountAt(buffer: seq<Octet>, at: nat): nat
    requires at + TIMESLICE_HEADER <= |buffer|
  {
    Unsigned(buffer[at + 8..at + 12])
  }

  function SizeAt(buffer: seq<Octet>, at: nat): nat
    requires at + TIMESLICE_HEADER <= |buffer|
  {
    TIMESLICE_HEADER + EVENT_SIZE * CountAt(buffer, at)
  }

  // A whole timeslice lies at this offset.
  predicate HasSlice(buffer: seq<Octet>, at: nat) {
    at + TIMESLICE_HEADER <= |buffer| && at + SizeAt(buffer, at) <= |buffer|
  }

  function SliceAt(buffer: seq<Octet>, at: nat): Timeslice
    requires HasSlice(buffer, at)
  {
    Timeslice(Unsigned(buffer[at..at + 8]), EventsAt(buffer, at + TIMESLICE_HEADER, CountAt(buffer, at)))
  }

  // The walk over so many slices.
  function Walk(buffer: seq<Octet>, at: nat, count: nat): Option<seq<Timeslice>>
    decreases count
  {
    if count == 0 then Some([])
    else if !HasSlice(buffer, at) then None
    else
      match Walk(buffer, at + SizeAt(buffer, at), count - 1)
      case None => None
      case Some(rest) => Some([SliceAt(buffer, at)] + rest)
  }

  function Parse(buffer: seq<Octet>): Option<seq<Timeslice>> {
    if |buffer| < DATA_HEADER then None
    else Walk(buffer, DATA_HEADER, Unsigned(buffer[..4]))
  }

  // Where the numbers of an event and of a timeslice are, least significant byte first.
  lemma EventSpelledOut(buffer: seq<Octet>, at: nat)
    requires at + EVENT_SIZE <= |buffer|
    ensures var e := EventAt(buffer, at);
            var x0: int, x1: int, y0: int, y1: int := buffer[at], buffer[at + 1], buffer[at + 2], buffer[at + 3];
            var p: int := buffer[at + 4];
            && e.x == x0 + 0x100 * x1 && e.y == y0 + 0x100 * y1
            && e.polarity == (if p < 128 then p else p - 256) && e.reserved == buffer[at + 5]
  {
    var x, y := buffer[at..at + 2], buffer[at + 2..at + 4];
    Two(x);
    Two(y);
  }

  lemma SliceSpelledOut(buffer: seq<Octet>, at: nat)
    requires at + TIMESLICE_HEADER <= |buffer|
    ensures var n0: int, n1: int, n2: int, n3: int := buffer[at + 8], buffer[at + 9], buffer[at + 10], buffer[at + 11];
            CountAt(buffer, at) == n0 + 0x100 * n1 + 0x1_0000 * n2 + 0x100_0000 * n3
    ensures SizeAt(buffer, at) == 24 + 6 * CountAt(buffer, at)
    ensures HasSlice(buffer, at) ==>
              SliceAt(buffer, at).timestamp == Unsigned(buffer[at..at + 4]) + 0x1_0000_0000 * Unsigned(buffer[at + 4..at + 8])
  {
    Four(buffer[at + 8..at + 12]);
    assert buffer[at..at + 8] == buffer[at..at + 4] + buffer[at + 4..at + 8];
    HighHalf(buffer[at..at + 4], buffer[at + 4..at + 8]);
  }

  lemma Two(b: seq<Octet>)
    requires |b| == 2
    ensures var n0: int, n1: int := b[0], b[1];
            Unsigned(b) == n0 + 0x100 * n1
  {
    assert Unsigned(b[1..][1..]) == 0;
  }

  lemma Four(b: seq<Octet>)
    requires |b| == 4
    ensures var n0: int, n1: int, n2: int, n3: int := b[0], b[1], b[2], b[3];
            Unsigned(b) == n0 + 0x100 * n1 + 0x1_0000 * n2 + 0x100_0000 * n3
  {
    Two(b[1..][1..]);
    assert Unsigned(b) == b[0] + 0x100 * Unsigned(b[1..]);
    assert Unsigned(b[1..]) == b[1] + 0x100 * Unsigned(b[1..][1..]);
  }

  lemma HighHalf(low: seq<Octet>, high: seq<Octet>)
    requires |low| == 4
    ensures Unsigned(low + high) == Unsigned(low) + 0x1_0000_0000 * Unsigned(high)
  {
    Shift(low[3..], high);
    Shift(low[2..], high);
    Shift(low[1..], high);
    Shift(low, high);
    assert low[3..][1..] + high == high;
    assert low[2..][1..] == low[3..] && low[1..][1..] == low[2..];
    assert Unsigned(low[3..][1..]) == 0;
  }

  lemma Shift(bytes: seq<Octet>, more: seq<Octet>)
    requires bytes != []
    ensures Unsigned(bytes + more) == (bytes[0] as int) + 0x100 * Unsigned(bytes[1..] + more)
    ensures Unsigned(bytes) == (bytes[0] as int) + 0x100 * Unsigned(bytes[1..])
  {
    assert (bytes + more)[1..] == bytes[1..] + more;
  }

  // ---- When reading succeeds ----

  // The slices lie one behind the other, each as long as its own event count says, from the first
  // offset to the last.
  ghost predicate Tiles(buffer: seq<Octet>, offsets: seq<nat>) {
    && offsets != []
    && (forall i :: 0 <= i < |offsets| - 1 ==>
          HasSlice(buffer, offsets[i]) && offsets[i + 1] == offsets[i] + SizeAt(buffer, offsets[i]))
  }

  lemma {:induction false} WalkTiles(buffer: seq<Octet>, at: nat, count: nat) returns (offsets: seq<nat>)
    requires Walk(buffer, at, count).Some?
    ensures Tiles(buffer, offsets) && |offsets| == count + 1 && offsets[0] == at
    ensures var slices := Walk(buffer, at, count).value;
            |slices| == count && forall i :: 0 <= i < count ==> slices[i] == SliceAt(buffer, offsets[i])
    decreases count
  {
    if count == 0 {
      offsets := [at];
    } else {
      var rest := WalkTiles(buffer, at + SizeAt(buffer, at), count - 1);
      offsets := [at] + rest;
    }
  }

  lemma {:induction false} TilesWalk(buffer: seq<Octet>, offsets: seq<nat>)
    requires Tiles(buffer, offsets)
    ensures Walk(buffer, offsets[0], |offsets| - 1).Some?
    decreases |offsets|
  {
    if |offsets| > 1 {
      var rest := offsets[1..];
      forall i | 0 <= i < |rest| - 1
        ensures HasSlice(buffer, rest[i]) && rest[i + 1] == rest[i] + SizeAt(buffer, rest[i])
      {
        assert HasSlice(buffer, offsets[i + 1]);
      }
      TilesWalk(buffer, rest);
    }
  }

  // Reading succeeds exactly when as many slices as the header says lie one behind the other from
  // offset 16 and the last one ends inside the buffer.
  lemma SucceedsExactly(buffer: seq<Octet>)
    ensures Parse(buffer).Some? <==>
              |buffer| >= DATA_HEADER
              && exists offsets: seq<nat> ::
                   && |offsets| == Unsigned(buffer[..4]) + 1
                   && offsets[0] == DATA_HEADER
                   && Tiles(buffer, offsets)
  {
    if Parse(buffer).Some? {
      var offsets := WalkTiles(buffer, DATA_HEADER, Unsigned(buffer[..4]));
    }
    if |buffer| >= DATA_HEADER {
      forall offsets: seq<nat> | Tiles(buffer, offsets) ensures Walk(buffer, offsets[0], |offsets| - 1).Some? {
        TilesWalk(buffer, offsets);
      }
    }
  }

  // ---- The layout, written ----

  predicate ValidEvent(e: Event) {
    e.x < 0x1_0000 && e.y < 0x1_0000 && -0x80 <= e.polarity < 0x80 && e.reserved < 0x100
  }

  predicate ValidSlice(s: Timeslice) {
    && s.timestamp < 0x1_0000_0000_0000_0000
    && |s.events| < 0x1_0000_0000
    && forall i :: 0 <= i < |s.events| ==> ValidEvent(s.events[i])
  }

  function EventBytes(e: Event): (bytes: seq<Octet>)
    requires ValidEvent(e)
    ensures |bytes| == EVENT_SIZE
  {
    LittleEndian(e.x, 2) + LittleEndian(e.y, 2)
    + [if e.polarity < 0 then e.polarity + 0x100 else e.polarity] + [e.reserved]
  }

  function AllEventBytes(events: seq<Event>): (bytes: seq<Octet>)
    requires forall i :: 0 <= i < |events| ==> ValidEvent(events[i])
    ensures |bytes| == EVENT_SIZE * |events|
  {
    if events == [] then [] else EventBytes(events[0]) + AllEventBytes(events[1..])
  }

  // Twelve bytes of a timeslice's header are not read.
  function SliceBytes(s: Timeslice, unused: seq<Octet>): (bytes: seq<Octet>)
    requires ValidSlice(s) && |unused| == 12
    ensures |bytes| == TIMESLICE_HEADER + EVENT_SIZE * |s.events|
  {
    LittleEndian(s.timestamp, 8) + LittleEndian(|s.events|, 4) + unused + AllEventBytes(s.events)
  }

  // Twelve unread bytes for each header.
  predicate Unread(parts: seq<seq<Octet>>) {
    forall i :: 0 <= i < |parts| ==> |parts[i]| == 12
  }

  predicate AllValid(slices: seq<Timeslice>) {
    forall i :: 0 <= i < |slices| ==> ValidSlice(slices[i])
  }

  function AllSliceBytes(slices: seq<Timeslice>, unread: seq<seq<Octet>>): seq<Octet>
    requires AllValid(slices) && Unread(unread) && |unread| == |slices|
  {
    if slices == [] then [] else SliceBytes(slices[0], unread[0]) + AllSliceBytes(slices[1..], unread[1..])
  }

  // The first unread part belongs to the header of the buffer, the others to those of the slices.
  function Written(slices: seq<Timeslice>, unread: seq<seq<Octet>>): seq<Octet>
    requires AllValid(slices) && Unread(unread) && |unread| == |slices| + 1
  {
    LittleEndian(|slices|, 4) + unread[0] + AllSliceBytes(slices, unread[1..])
  }

  // Where a part of a buffer is found.
  lemma Middle(before: seq<Octet>, part: seq<Octet>, after: seq<Octet>, from: nat, to: nat)
    requires from <= to <= |part|
    ensures (before + part + after)[|before| + from..|before| + to] == part[from..to]
  {
  }

  lemma Regroup(a: seq<Octet>, b: seq<Octet>, c: seq<Octet>, d: seq<Octet>)
    ensures a + (b + c) + d == a + b + (c + d)
    ensures a + (b + c) + d == (a + b) + c + d
  {
  }

  lemma ReadEvent(before: seq<Octet>, e: Event, after: seq<Octet>)
    requires ValidEvent(e)
    ensures EventAt(before + EventBytes(e) + after, |before|) == e
  {
    Spans();
    var x, y := LittleEndian(e.x, 2), LittleEndian(e.y, 2);
    var bytes := EventBytes(e);
    assert bytes[0..2] == x && bytes[2..4] == y;
    Middle(before, bytes, after, 0, 2);
    Middle(before, bytes, after, 2, 4);
    ReadWritten(e.x, 2);
    ReadWritten(e.y, 2);
  }

  lemma {:induction false} ReadEvents(before: seq<Octet>, events: seq<Event>, after: seq<Octet>)
    requires forall i :: 0 <= i < |events| ==> ValidEvent(events[i])
    ensures EventsAt(before + AllEventBytes(events) + after, |before|, |events|) == events
    decreases |events|
  {
    hide EventBytes, EventAt, EventsAt, ValidEvent;
    if events != [] {
      var first, rest := EventBytes(events[0]), AllEventBytes(events[1..]);
      var buffer := before + AllEventBytes(events) + after;
      Regroup(before, first, rest, after);
      ReadEvent(before, events[0], rest + after);
      ReadEvents(before + first, events[1..], after);
      EventsFrom(buffer, |before|, |events|);
    }
  }

  lemma EventsFrom(buffer: seq<Octet>, at: nat, count: nat)
    requires count > 0 && at + EVENT_SIZE * count <= |buffer|
    ensures EventsAt(buffer, at, count) == [EventAt(buffer, at)] + EventsAt(buffer, at + EVENT_SIZE, count - 1)
  {
  }

  lemma ReadSlice(before: seq<Octet>, s: Timeslice, unused: seq<Octet>, after: seq<Octet>)
    requires ValidSlice(s) && |unused| == 12
    ensures var buffer := before + SliceBytes(s, unused) + after;
            && HasSlice(buffer, |before|)
            && SizeAt(buffer, |before|) == |SliceBytes(s, unused)|
            && SliceAt(buffer, |before|) == s
  {
    hide LittleEndian, Unsigned, AllEventBytes, EventsAt, Span;
    Spans();
    var time, count, events := LittleEndian(s.timestamp, 8), LittleEndian(|s.events|, 4), AllEventBytes(s.events);
    var bytes := SliceBytes(s, unused);
    var buffer := before + bytes + after;
    assert bytes[0..8] == time && bytes[8..12] == count;
    Middle(before, bytes, after, 0, 8);
    Middle(before, bytes, after, 8, 12);
    ReadWritten(s.timestamp, 8);
    ReadWritten(|s.events|, 4);
    var front := before + (time + count + unused);
    assert buffer == front + events + after;
    ReadEvents(front, s.events, after);
  }

  lemma {:induction false} WalkWritten(before: seq<Octet>, slices: seq<Timeslice>, unread: seq<seq<Octet>>, after: seq<Octet>)
    requires AllValid(slices) && Unread(unread) && |unread| == |slices|
    ensures Walk(before + AllSliceBytes(slices, unread) + after, |before|, |slices|) == Some(slices)
    decreases |slices|
  {
    hide SliceBytes, SliceAt, HasSlice, SizeAt;
    if slices != [] {
      var first, rest := SliceBytes(slices[0], unread[0]), AllSliceBytes(slices[1..], unread[1..]);
      var buffer := before + AllSliceBytes(slices, unread) + after;
      Regroup(before, first, rest, after);
      ReadSlice(before, slices[0], unread[0], rest + after);
      WalkWritten(before + first, slices[1..], unread[1..], after);
      assert [slices[0]] + slices[1..] == slices;
    }
  }

  // A buffer written in the layout is read back as the same slices, whatever the unread bytes of each
  // header and whatever follows the last slice.
  lemma RoundTrip(slices: seq<Timeslice>, unread: seq<seq<Octet>>, after: seq<Octet>)
    requires AllValid(slices) && Unread(unread) && |unread| == |slices| + 1 && |slices| < 0x1_0000_0000
    ensures Parse(Written(slices, unread) + after) == Some(slices)
  {
    hide LittleEndian, Unsigned, AllSliceBytes, Walk, Span, AllValid;
    Spans();
    var head := LittleEndian(|slices|, 4);
    var buffer := Written(slices, unread) + after;
    assert buffer[..4] == head;
    ReadWritten(|slices|, 4);
    assert buffer == (head + unread[0]) + AllSliceBytes(slices, unread[1..]) + after;
    WalkWritten(head + unread[0], slices, unread[1..], after);
  }

  // What was read before a walk, and what the walk finds.
  function Behind(read: seq<Timeslice>, walk: Option<seq<Timeslice>>): Option<seq<Timeslice>> {
    if walk.None? then None else Some(read + walk.value)
  }

  lemma Begin(walk: Option<seq<Timeslice>>)
    ensures Behind([], walk) == walk
  {
    assert walk.Some? ==> [] + walk.value == walk.value;
  }

  lemma Continue(read: seq<Timeslice>, slice: Timeslice, walk: Option<seq<Timeslice>>)
    ensures Behind(read, Behind([slice], walk)) == Behind(read + [slice], walk)
  {
    assert walk.Some? ==> read + ([slice] + walk.value) == read + [slice] + walk.value;
  }

  // ---- The classes ----

  // The events of a slice, read from the buffer on demand.
  class EventArray {
    const buffer: seq<Octet>
    const at: nat
    const count: nat
    var cursor: nat

    constructor (buffer: seq<Octet>, at: nat, count: nat)
      requires at + EVENT_SIZE * count <= |buffer|
      ensures this.buffer == buffer && this.at == at && this.count == count && cursor == 0
    {
      this.buffer, this.at, this.count, cursor := buffer, at, count, 0;
    }

    ghost function Events(): seq<Event>
      requires at + EVENT_SIZE * count <= |buffer|
    {
      EventsAt(buffer, at, count)
    }

    // Iteration gives the events in order, then stops.
    method Next() returns (event: Option<Event>)
      requires at + EVENT_SIZE * count <= |buffer|
      modifies this
      ensures event == if old(cursor) < count then Some(Events()[old(cursor)]) else None
      ensures cursor == if old(cursor) < count then old(cursor) + 1 else old(cursor)
    {
      if count <= cursor {
        return None;
      }
      event := Some(EventAt(buffer, at + EVENT_SIZE * cursor));
      cursor := cursor + 1;
    }

    // No event for an index out of range.
    method GetItem(num: int) returns (event: Option<Event>)
      requires at + EVENT_SIZE * count <= |buffer|
      ensures event == if 0 <= num < count then Some(Events()[num]) else None
    {
      if count <= num || num < 0 {
        return None;
      }
      return Some(EventAt(buffer, at + EVENT_SIZE * num));
    }
  }

  class TemporalContrastData {
    var count: nat
    var bundles: seq<Timeslice>

    constructor ()
      ensures count == 0 && bundles == []
    {
      count, bundles := 0, [];
    }

    // The constructor of one timeslice, with the size left from its offset on.
    method ReadTimeslice(buffer: seq<Octet>, at: nat) returns (ok: bool, slice: Timeslice, totalSize: nat)
      requires at <= |buffer|
      ensures ok == HasSlice(buffer, at)
      ensures ok ==> slice == SliceAt(buffer, at) && totalSize == SizeAt(buffer, at)
    {
      var size := |buffer| - at;
      slice, totalSize := Timeslice(0, []), 0;
      if size < TIMESLICE_HEADER {
        return false, slice, totalSize;
      }
      var events := CountAt(buffer, at);
      totalSize := events * EVENT_SIZE + TIMESLICE_HEADER;
      if size < totalSize {
        return false, slice, totalSize;
      }
      slice := Timeslice(Unsigned(buffer[at..at + 8]), EventsAt(buffer, at + TIMESLICE_HEADER, events));
      return true, slice, totalSize;
    }

    // Where the buffer is overrun, nothing is stored.
    method FromBytes(buffer: seq<Octet>) returns (ok: bool)
      modifies this
      ensures ok == Parse(buffer).Some?
      ensures ok ==> Some(bundles) == Parse(buffer) && count == |bundles|
      ensures !ok ==> bundles == old(bundles) && count == old(count)
    {
      if |buffer| < DATA_HEADER {
        return false;
      }
      var n := Unsigned(buffer[..4]);
      var read: seq<Timeslice> := [];
      var offset: nat, i: nat := DATA_HEADER, 0;
      Begin(Walk(buffer, offset, n));
      while i < n
        invariant i <= n && offset <= |buffer| && |read| == i
        invariant Parse(buffer) == Behind(read, Walk(buffer, offset, n - i))
        invariant bundles == old(bundles) && count == old(count)
      {
        var fits, slice, totalSize := ReadTimeslice(buffer, offset);
        if !fits {
          return false;
        }
        Continue(read, slice, Walk(buffer, offset + totalSize, n - i - 1));
        read := read + [slice];
        offset := offset + totalSize;
        i := i + 1;
      }
      assert read + [] == read;
      count, bundles := n, read;
      return true;
    }
  }
}
