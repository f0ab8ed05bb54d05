// The list of SSDP neighbours kept by an lssdp context: a linked list that is updated, appended to
// and expired in place, with a callback after every visible change.
//
// The list is specified by three functions on sequences of entries (Added, Unexpired, and the empty
// list); the lemmas about whole runs are stated on those functions, and the class proves that the
// linked list computes them.
module NeighborList {
  const CLOCK_SPAN: int := 0x1_0000_0000_0000_0000

  // The texts and the time stamp of one lssdp_nbr, or of the packet that announced it.
  datatype Entry = Entry(
    usn: string,
    location: string,
    connection: string,
    address: string,
    addressSecondly: string,
    smId: string,
    deviceType: string,
    updateTime: int)

  // What a callback can tell apart: everything but the time stamp.
  function Visible(e: Entry): Entry {
    e.(updateTime := 0)
  }

  ghost predicate LooksSame(a: seq<Entry>, b: seq<Entry>) {
    |a| == |b| && forall i :: 0 <= i < |a| ==> Visible(a[i]) == Visible(b[i])
  }

  // What the change callbacks have told: the list shown by the last one, and how many there were.
  datatype Observer = Observer(copy: seq<Entry>, notices: nat)

  // The callback runs exactly when the change can be seen.
  ghost function Told(observer: Observer, hasCallback: bool, before: seq<Entry>, after: seq<Entry>): Observer {
    if hasCallback && !LooksSame(after, before) then Observer(after, observer.notices + 1) else observer
  }

  // One callback for a list of another length or with another text somewhere, and none otherwise.
  lemma ToldExactly(observer: Observer, hasCallback: bool, before: seq<Entry>, after: seq<Entry>)
    ensures var told := Told(observer, hasCallback, before, after);
            var same := |before| == |after| && forall i :: 0 <= i < |before| ==>
                          var a, b := before[i], after[i];
                          && a.usn == b.usn && a.location == b.location && a.connection == b.connection
                          && a.address == b.address && a.addressSecondly == b.addressSecondly
                          && a.smId == b.smId && a.deviceType == b.deviceType;
            && told.notices == observer.notices + (if hasCallback && !same then 1 else 0)
            && told.copy == (if hasCallback && !same then after else observer.copy)
  {
    forall i | 0 <= i < |before| && i < |after|
      ensures Visible(before[i]) == Visible(after[i]) <==>
                var a, b := before[i], after[i];
                && a.usn == b.usn && a.location == b.location && a.connection == b.connection
                && a.address == b.address && a.addressSecondly == b.addressSecondly
                && a.smId == b.smId && a.deviceType == b.deviceType
    {
      VisibleExactly(before[i], after[i]);
    }
  }

  lemma VisibleExactly(a: Entry, b: Entry)
    ensures Visible(a) == Visible(b) <==>
              && a.usn == b.usn && a.location == b.location && a.connection == b.connection
              && a.address == b.address && a.addressSecondly == b.addressSecondly
              && a.smId == b.smId && a.deviceType == b.deviceType
  {
  }

  ghost predicate DistinctLocations(list: seq<Entry>) {
    forall i, j :: 0 <= i < j < |list| ==> list[i].location != list[j].location
  }

  ghost predicate Mentions(list: seq<Entry>, location: string) {
    exists i :: 0 <= i < |list| && list[i].location == location
  }

  // The list after a packet was heard: it replaces the entry at its location or comes last.
  function Added(list: seq<Entry>, packet: Entry): seq<Entry> {
    if list == [] then [packet]
    else if list[0].location == packet.location then [packet] + list[1..]
    else [list[0]] + Added(list[1..], packet)
  }

  // The subtraction of the two unsigned 64-bit times wraps around.
  predicate Alive(e: Entry, now: int, timeout: nat) {
    (now - e.updateTime) % CLOCK_SPAN < timeout
  }

  function Unexpired(list: seq<Entry>, now: int, timeout: nat): seq<Entry> {
    if list == [] then []
    else (if Alive(list[0], now, timeout) then [list[0]] else []) + Unexpired(list[1..], now, timeout)
  }

  // A timeout of 0 and a clock that reads 0 both leave the list alone.
  function Checked(list: seq<Entry>, now: int, timeout: nat): seq<Entry> {
    if timeout == 0 || now == 0 then list else Unexpired(list, now, timeout)
  }

  lemma {:induction false} AddedInPlace(list: seq<Entry>, packet: Entry, at: nat)
    requires at < |list| && list[at].location == packet.location
    requires forall k :: 0 <= k < at ==> list[k].location != packet.location
    ensures Added(list, packet) == list[at := packet]
  {
    if at > 0 {
      AddedInPlace(list[1..], packet, at - 1);
      assert list[at := packet] == [list[0]] + list[1..][at - 1 := packet];
    }
  }

  lemma {:induction false} AddedLast(list: seq<Entry>, packet: Entry)
    requires forall k :: 0 <= k < |list| ==> list[k].location != packet.location
    ensures Added(list, packet) == list + [packet]
  {
    if list != [] {
      AddedLast(list[1..], packet);
      assert list + [packet] == [list[0]] + (list[1..] + [packet]);
    }
  }

  lemma {:induction false} UnexpiredStep(list: seq<Entry>, at: nat, now: int, timeout: nat)
    requires at < |list|
    ensures Unexpired(list[..at + 1], now, timeout)
         == Unexpired(list[..at], now, timeout) + if Alive(list[at], now, timeout) then [list[at]] else []
  {
    if at == 0 {
      assert list[..1] == [list[0]] && list[..1][1..] == [];
    } else {
      UnexpiredStep(list[1..], at - 1, now, timeout);
      assert list[..at + 1][1..] == list[1..][..at] && list[..at][1..] == list[1..][..at - 1];
    }
  }

  // On the 64-bit clock: the time since the entry was heard, forwards or over the wrap, is below the timeout.
  lemma {:induction false} UnexpiredExactly(list: seq<Entry>, now: int, timeout: nat, e: Entry)
    requires 0 <= now < 0x1_0000_0000_0000_0000 && 0 <= e.updateTime < 0x1_0000_0000_0000_0000
    ensures e in Unexpired(list, now, timeout) <==>
              && e in list
              && (|| (e.updateTime <= now && now - e.updateTime < timeout)
                  || (now < e.updateTime && now + 0x1_0000_0000_0000_0000 - e.updateTime < timeout))
  {
    if list != [] {
      UnexpiredExactly(list[1..], now, timeout, e);
      if list[0] == e {
        Elapsed(e.updateTime, now);
      }
    }
  }

  lemma Elapsed(time: int, now: int)
    requires 0 <= now < 0x1_0000_0000_0000_0000 && 0 <= time < 0x1_0000_0000_0000_0000
    ensures (now - time) % CLOCK_SPAN == if time <= now then now - time else now + 0x1_0000_0000_0000_0000 - time
  {
  }

  // ---- Whole runs ----

  datatype Event = Heard(packet: Entry) | Check(now: int, timeout: nat) | RemoveAll

  function After(list: seq<Entry>, event: Event): seq<Entry> {
    match event
    case Heard(packet) => Added(list, packet)
    case Check(now, timeout) => Checked(list, now, timeout)
    case RemoveAll => []
  }

  // The list after a run of events on a new context.
  function Run(events: seq<Event>): seq<Entry> {
    if events == [] then [] else After(Run(events[..|events| - 1]), events[|events| - 1])
  }

  // One neighbour: what was last heard from a location, and when it last appeared.
  datatype Presence = Absent | Present(last: Entry, since: nat)

  // The fate of a single location, which only its own packets, the checks and the removals decide.
  function Fate(events: seq<Event>, location: string): Presence {
    if events == [] then Absent
    else NextFate(Fate(events[..|events| - 1], location), events[|events| - 1], |events| - 1, location)
  }

  function NextFate(was: Presence, event: Event, time: nat, location: string): Presence {
    match event
    case Heard(packet) =>
      if packet.location != location then was
      else if was.Absent? then Present(packet, time) else Present(packet, was.since)
    case Check(now, timeout) =>
      if was.Present? && timeout != 0 && now != 0 && !Alive(was.last, now, timeout) then Absent else was
    case RemoveAll => Absent
  }

  lemma FateStep(events: seq<Event>, event: Event, location: string)
    ensures Fate(events + [event], location) == NextFate(Fate(events, location), event, |events|, location)
  {
    assert (events + [event])[..|events|] == events;
  }

  // The list holds exactly the present neighbours, each with what was last heard from it, in the
  // order in which they appeared.
  ghost predicate ListsPresent(list: seq<Entry>, events: seq<Event>) {
    && ListsOnlyPresent(list, events)
    && ListsEveryPresent(list, events)
    && ByArrival(list, events)
  }

  ghost predicate ListsOnlyPresent(list: seq<Entry>, events: seq<Event>) {
    forall i :: 0 <= i < |list| ==>
      Fate(events, list[i].location).Present? && Fate(events, list[i].location).last == list[i]
  }

  ghost predicate ListsEveryPresent(list: seq<Entry>, events: seq<Event>) {
    forall location :: Fate(events, location).Present? ==> Mentions(list, location)
  }

  ghost predicate ByArrival(list: seq<Entry>, events: seq<Event>) {
    forall i, j :: 0 <= i < j < |list| ==>
      Since(events, list[i].location) < Since(events, list[j].location)
  }

  function Since(events: seq<Event>, location: string): int {
    var fate := Fate(events, location);
    if fate.Present? then fate.since else -1
  }

  lemma {:induction false} SinceIsPast(events: seq<Event>, location: string)
    ensures Since(events, location) < |events|
    decreases |events|
  {
    if events != [] {
      SinceIsPast(events[..|events| - 1], location);
    }
  }

  lemma HeardKeeps(list: seq<Entry>, events: seq<Event>, packet: Entry)
    requires ListsPresent(list, events)
    ensures ListsPresent(Added(list, packet), events + [Heard(packet)])
  {
    if at :| 0 <= at < |list| && list[at].location == packet.location {
      HeardAgainKeeps(list, events, packet, at);
    } else {
      HeardFirstKeeps(list, events, packet);
    }
  }

  lemma HeardAgainKeeps(list: seq<Entry>, events: seq<Event>, packet: Entry, at: nat)
    requires ListsPresent(list, events) && at < |list| && list[at].location == packet.location
    ensures ListsPresent(Added(list, packet), events + [Heard(packet)])
  {
    hide Fate, Added;
    var next := events + [Heard(packet)];
    forall l {
      FateStep(events, Heard(packet), l);
    }
    forall k | 0 <= k < at ensures list[k].location != packet.location {
      assert Since(events, list[k].location) < Since(events, list[at].location);
    }
    AddedInPlace(list, packet, at);
    var added := list[at := packet];
    assert forall i :: 0 <= i < |list| ==> added[i].location == list[i].location;
    forall i | 0 <= i < |list| && i != at ensures list[i].location != packet.location {
      if at < i {
        assert Since(events, list[at].location) < Since(events, list[i].location);
      }
    }
    SameLocationsMention(list, added);
    assert ListsOnlyPresent(added, next);
    assert ByArrival(added, next);
    assert ListsEveryPresent(added, next) by {
      assert Mentions(list, packet.location);
    }
  }

  lemma SameLocationsMention(a: seq<Entry>, b: seq<Entry>)
    requires |a| == |b| && forall i :: 0 <= i < |a| ==> a[i].location == b[i].location
    ensures forall l :: Mentions(a, l) ==> Mentions(b, l)
  {
    forall l | Mentions(a, l) ensures Mentions(b, l) {
      var i :| 0 <= i < |a| && a[i].location == l;
      assert b[i].location == l;
    }
  }

  lemma HeardFirstKeeps(list: seq<Entry>, events: seq<Event>, packet: Entry)
    requires ListsPresent(list, events) && !Mentions(list, packet.location)
    ensures ListsPresent(Added(list, packet), events + [Heard(packet)])
  {
    hide Fate, Added;
    var next := events + [Heard(packet)];
    forall l {
      FateStep(events, Heard(packet), l);
    }
    AddedLast(list, packet);
    var added := list + [packet];
    forall i | 0 <= i < |list| ensures list[i].location != packet.location {
    }
    forall l | Fate(next, l).Present? ensures Mentions(added, l) {
      if l == packet.location {
        assert added[|list|].location == l;
      } else {
        assert Mentions(list, l);
        var i :| 0 <= i < |list| && list[i].location == l;
        assert added[i].location == l;
      }
    }
    forall i | 0 <= i < |list| ensures Since(next, list[i].location) < Since(next, packet.location) {
      SinceIsPast(events, list[i].location);
    }
  }

  // Where the entries of the filtered list come from.
  lemma {:induction false} UnexpiredFrom(list: seq<Entry>, now: int, timeout: nat) returns (from: seq<nat>)
    ensures |from| == |Unexpired(list, now, timeout)|
    ensures forall i :: 0 <= i < |from| ==>
              from[i] < |list| && Unexpired(list, now, timeout)[i] == list[from[i]] && Alive(list[from[i]], now, timeout)
    ensures forall i, j :: 0 <= i < j < |from| ==> from[i] < from[j]
    ensures forall k :: 0 <= k < |list| && Alive(list[k], now, timeout) ==> k in from
    decreases |list|
  {
    if list == [] {
      from := [];
    } else {
      var last := |list| - 1;
      UnexpiredStep(list, last, now, timeout);
      assert list[..last + 1] == list;
      from := UnexpiredFrom(list[..last], now, timeout);
      hide Unexpired, Alive;
      if Alive(list[last], now, timeout) {
        from := from + [last];
      }
    }
  }

  lemma CheckKeeps(list: seq<Entry>, events: seq<Event>, now: int, timeout: nat)
    requires ListsPresent(list, events)
    ensures ListsPresent(Checked(list, now, timeout), events + [Check(now, timeout)])
  {
    var next := events + [Check(now, timeout)];
    forall l {
      FateStep(events, Check(now, timeout), l);
    }
    if timeout != 0 && now != 0 {
      var from := UnexpiredFrom(list, now, timeout);
      CheckKeepsPresent(list, events, now, timeout, from);
      CheckKeepsEvery(list, events, now, timeout, from);
    }
  }

  lemma CheckKeepsPresent(list: seq<Entry>, events: seq<Event>, now: int, timeout: nat, from: seq<nat>)
    requires ListsOnlyPresent(list, events) && ByArrival(list, events) && timeout != 0 && now != 0
    requires |from| == |Unexpired(list, now, timeout)|
    requires forall i :: 0 <= i < |from| ==>
               from[i] < |list| && Unexpired(list, now, timeout)[i] == list[from[i]] && Alive(list[from[i]], now, timeout)
    requires forall i, j :: 0 <= i < j < |from| ==> from[i] < from[j]
    ensures ListsOnlyPresent(Unexpired(list, now, timeout), events + [Check(now, timeout)])
    ensures ByArrival(Unexpired(list, now, timeout), events + [Check(now, timeout)])
  {
    hide Fate, Unexpired, Alive;
    var next := events + [Check(now, timeout)];
    forall i | 0 <= i < |from|
      ensures Fate(next, list[from[i]].location) == Fate(events, list[from[i]].location)
    {
      FateStep(events, Check(now, timeout), list[from[i]].location);
    }
  }

  lemma CheckKeepsEvery(list: seq<Entry>, events: seq<Event>, now: int, timeout: nat, from: seq<nat>)
    requires ListsOnlyPresent(list, events) && ListsEveryPresent(list, events) && timeout != 0 && now != 0
    requires |from| == |Unexpired(list, now, timeout)|
    requires forall i :: 0 <= i < |from| ==>
               from[i] < |list| && Unexpired(list, now, timeout)[i] == list[from[i]]
    requires forall k :: 0 <= k < |list| && Alive(list[k], now, timeout) ==> k in from
    ensures ListsEveryPresent(Unexpired(list, now, timeout), events + [Check(now, timeout)])
  {
    hide Fate, Unexpired, Alive;
    var next := events + [Check(now, timeout)];
    forall l | Fate(next, l).Present? ensures Mentions(Unexpired(list, now, timeout), l) {
      FateStep(events, Check(now, timeout), l);
      assert Mentions(list, l);
      var k :| 0 <= k < |list| && list[k].location == l;
      var i :| 0 <= i < |from| && from[i] == k;
      assert Unexpired(list, now, timeout)[i].location == l;
    }
  }

  lemma {:induction false} RunListsPresent(events: seq<Event>)
    ensures ListsPresent(Run(events), events)
    decreases |events|
  {
    if events != [] {
      var before := events[..|events| - 1];
      RunListsPresent(before);
      assert events == before + [events[|events| - 1]];
      hide Added, Unexpired;
      match events[|events| - 1]
      case Heard(packet) => HeardKeeps(Run(before), before, packet);
      case Check(now, timeout) => CheckKeeps(Run(before), before, now, timeout);
      case RemoveAll =>
        assert forall l :: Fate(events, l) == Absent;
    }
  }

  // Over any run, the list is an insertion-ordered map from locations to the last packet heard from
  // them: no location twice, a location is listed exactly when it was heard and neither expired nor
  // removed since, with the texts and time of its last packet, older arrivals first.
  lemma RunIsOrderedMap(events: seq<Event>, location: string)
    ensures DistinctLocations(Run(events))
    ensures Mentions(Run(events), location) <==> Fate(events, location).Present?
    ensures forall i :: 0 <= i < |Run(events)| && Run(events)[i].location == location ==>
              Run(events)[i] == Fate(events, location).last
    ensures forall i, j :: 0 <= i < j < |Run(events)| ==>
              Since(events, Run(events)[i].location) < Since(events, Run(events)[j].location)
  {
    RunListsPresent(events);
  }

  // Each step keeps the locations distinct, whatever the list was before.
  lemma AfterKeepsDistinct(list: seq<Entry>, event: Event)
    requires DistinctLocations(list)
    ensures DistinctLocations(After(list, event))
  {
    match event
    case Heard(packet) =>
      if at :| 0 <= at < |list| && list[at].location == packet.location {
        AddedInPlace(list, packet, at);
      } else {
        AddedLast(list, packet);
      }
    case Check(now, timeout) =>
      if timeout != 0 && now != 0 {
        var from := UnexpiredFrom(list, now, timeout);
      }
    case RemoveAll =>
  }

  // What overwriting one entry does to the list and to its looks.
  lemma UpdateFacts(list: seq<Entry>, packet: Entry, at: nat)
    requires DistinctLocations(list)
    requires at < |list| && list[at].location == packet.location
    requires forall k :: 0 <= k < at ==> list[k].location != packet.location
    ensures list[at := packet] == Added(list, packet)
    ensures DistinctLocations(list[at := packet])
    ensures LooksSame(list[at := packet], list) <==> Visible(packet) == Visible(list[at])
  {
    AddedInPlace(list, packet, at);
    if LooksSame(list[at := packet], list) {
      assert Visible(list[at := packet][at]) == Visible(list[at]);
    }
  }

  lemma AppendFacts(list: seq<Entry>, packet: Entry)
    requires DistinctLocations(list)
    requires forall k :: 0 <= k < |list| ==> list[k].location != packet.location
    ensures list + [packet] == Added(list, packet)
    ensures DistinctLocations(list + [packet])
    ensures !LooksSame(list + [packet], list)
  {
    AddedLast(list, packet);
  }

  lemma ExpiryFacts(list: seq<Entry>, now: int, timeout: nat)
    requires DistinctLocations(list)
    ensures DistinctLocations(Unexpired(list, now, timeout))
    ensures LooksSame(Unexpired(list, now, timeout), list) <==> |Unexpired(list, now, timeout)| == |list|
  {
    var from := UnexpiredFrom(list, now, timeout);
    if |from| == |list| {
      IncreasingIsIdentity(from, |list|);
    }
  }

  lemma {:induction false} IncreasingIsIdentity(from: seq<nat>, n: nat)
    requires |from| == n
    requires forall i :: 0 <= i < n ==> from[i] < n
    requires forall i, j :: 0 <= i < j < n ==> from[i] < from[j]
    ensures forall i :: 0 <= i < n ==> from[i] == i
  {
    if n > 0 {
      assert forall i :: 0 <= i < n - 1 ==> from[i] < from[n - 1];
      IncreasingIsIdentity(from[..n - 1], n - 1);
      assert forall i :: 0 <= i < n - 1 ==> from[..n - 1][i] == from[i];
      assert n > 1 ==> from[n - 2] < from[n - 1];
    }
  }

  function Without<T>(s: seq<T>, at: nat): (r: seq<T>)
    requires at < |s|
    ensures |r| == |s| - 1
    ensures forall i :: 0 <= i < |r| ==> r[i] == s[if i < at then i else i + 1]
  {
    s[..at] + s[at + 1..]
  }

  // The list while it is being checked: the first `at` entries are filtered, the others are as before.
  function Kept(list: seq<Entry>, at: nat, now: int, timeout: nat): nat
    requires at <= |list|
  {
    |Unexpired(list[..at], now, timeout)|
  }

  function Filtering(list: seq<Entry>, at: nat, now: int, timeout: nat): seq<Entry>
    requires at <= |list|
  {
    Unexpired(list[..at], now, timeout) + list[at..]
  }

  lemma FilteringStep(list: seq<Entry>, at: nat, now: int, timeout: nat, whole: seq<Entry>, kept: nat)
    requires at < |list|
    requires whole == Filtering(list, at, now, timeout) && kept == Kept(list, at, now, timeout)
    ensures |whole| - kept == |list| - at
    ensures Alive(whole[kept], now, timeout) ==>
              Filtering(list, at + 1, now, timeout) == whole && Kept(list, at + 1, now, timeout) == kept + 1
    ensures !Alive(whole[kept], now, timeout) ==>
              && Filtering(list, at + 1, now, timeout) == Without(whole, kept)
              && Kept(list, at + 1, now, timeout) == kept
  {
    UnexpiredStep(list, at, now, timeout);
    hide Unexpired, Alive;
    assert list[at..] == [list[at]] + list[at + 1..];
  }

  lemma FilteringEnds(list: seq<Entry>, now: int, timeout: nat)
    ensures Kept(list, 0, now, timeout) == 0 && Filtering(list, 0, now, timeout) == list
    ensures Filtering(list, |list|, now, timeout) == Unexpired(list, now, timeout)
    ensures Kept(list, |list|, now, timeout) == |Unexpired(list, now, timeout)|
  {
    assert list[..|list|] == list;
  }

  // ---- The linked list ----

  class Neighbor {
    var usn: string
    var location: string
    var connection: string
    var address: string
    var addressSecondly: string
    var smId: string
    var deviceType: string
    var updateTime: int
    var next: Neighbor?

    constructor (packet: Entry)
      ensures Value() == packet && next == null
    {
      usn, location, connection, address := packet.usn, packet.location, packet.connection, packet.address;
      addressSecondly, smId, deviceType := packet.addressSecondly, packet.smId, packet.deviceType;
      updateTime := packet.updateTime;
      next := null;
    }

    function Value(): Entry
      reads this
    {
      Entry(usn, location, connection, address, addressSecondly, smId, deviceType, updateTime)
    }

    // Takes over every field that differs, and tells whether one other than the time did.
    method Overwrite(packet: Entry) returns (isChanged: bool)
      requires location == packet.location
      modifies this
      ensures Value() == packet && next == old(next)
      ensures isChanged <==> Visible(old(Value())) != Visible(packet)
    {
      isChanged := false;
      if usn != packet.usn {
        usn, isChanged := packet.usn, true;
      }
      if smId != packet.smId {
        smId, isChanged := packet.smId, true;
      }
      if deviceType != packet.deviceType {
        deviceType, isChanged := packet.deviceType, true;
      }
      if connection != packet.connection {
        connection, isChanged := packet.connection, true;
      }
      if address != packet.address {
        address, isChanged := packet.address, true;
      }
      if addressSecondly != packet.addressSecondly {
        addressSecondly, isChanged := packet.addressSecondly, true;
      }
      updateTime := packet.updateTime;
    }
  }

  ghost predicate Shows(nodes: seq<Neighbor>, list: seq<Entry>)
    reads nodes
  {
    |nodes| == |list| && forall i :: 0 <= i < |nodes| ==> nodes[i].Value() == list[i]
  }

  // The nodes, in order, are what following `next` from the head visits, and then it ends.
  ghost predicate Linked(head: Neighbor?, nodes: seq<Neighbor>)
    reads nodes
  {
    && head == At(nodes, 0)
    && (forall i {:trigger nodes[i].next} :: 0 <= i < |nodes| ==> nodes[i].next == At(nodes, i + 1))
  }

  // No node is visited twice.
  ghost predicate Acyclic(nodes: seq<Neighbor>) {
    forall i, j :: 0 <= i < j < |nodes| ==> nodes[i] != nodes[j]
  }

  lemma AcyclicAt(nodes: seq<Neighbor>, at: nat)
    requires Acyclic(nodes) && at < |nodes|
    ensures forall i :: 0 <= i < |nodes| && i != at ==> nodes[i] != nodes[at]
    ensures Acyclic(Without(nodes, at))
  {
  }

  lemma AcyclicAppend(nodes: seq<Neighbor>, last: Neighbor)
    requires Acyclic(nodes) && last !in nodes
    ensures Acyclic(nodes + [last])
  {
  }

  ghost function At(nodes: seq<Neighbor>, i: nat): Neighbor? {
    if i < |nodes| then nodes[i] else null
  }

  class SsdpContext {
    var neighborList: Neighbor?
    var neighborTimeout: nat
    var hasCallback: bool

    // The nodes in list order, what they hold, a set of nodes with those of the list, and what the
    // callbacks told an observer.
    ghost var nodes: seq<Neighbor>
    ghost var contents: seq<Entry>
    ghost var repr: set<Neighbor>
    ghost var observer: Observer

    ghost predicate Intact()
      reads this, repr
    {
      && (forall i :: 0 <= i < |nodes| ==> nodes[i] in repr)
      && Linked(neighborList, nodes)
      && Acyclic(nodes)
      && Shows(nodes, contents)
    }

    ghost predicate Valid()
      reads this, repr
    {
      && Intact()
      && DistinctLocations(contents)
      && (hasCallback ==> LooksSame(observer.copy, contents))
    }

    constructor (timeout: nat, hasCallback: bool)
      ensures Valid() && contents == []
      ensures neighborTimeout == timeout && this.hasCallback == hasCallback && observer == Observer([], 0)
    {
      neighborList, neighborTimeout, this.hasCallback := null, timeout, hasCallback;
      nodes, contents, repr, observer := [], [], {}, Observer([], 0);
    }

    // The change callback: the observer copies the list it is shown.
    method NotifyIf(isChanged: bool, ghost before: seq<Entry>)
      requires Intact() && DistinctLocations(contents)
      requires hasCallback ==> LooksSame(observer.copy, before)
      requires isChanged <==> !LooksSame(contents, before)
      modifies this`observer
      ensures Valid() && observer == Told(old(observer), hasCallback, before, contents)
    {
      if isChanged && hasCallback {
        observer := Observer(contents, observer.notices + 1);
      }
    }

    method Add(packet: Entry, memoryLeft: bool) returns (code: int)
      requires Valid()
      modifies this`neighborList, this`nodes, this`contents, this`repr, this`observer, repr
      ensures Valid() && observer == Told(old(observer), hasCallback, old(contents), contents)
      ensures fresh(repr - old(repr))
      ensures code == if memoryLeft || Mentions(old(contents), packet.location) then 0 else -1
      ensures contents == if code == 0 then Added(old(contents), packet) else old(contents)
    {
      ghost var list := contents;
      ghost var i := 0;
      var lastNbr, nbr := neighborList, neighborList;
      while nbr != null
        invariant i <= |nodes| && nbr == At(nodes, i)
        invariant lastNbr == if i == 0 then neighborList else nodes[i - 1]
        invariant forall k :: 0 <= k < i ==> list[k].location != packet.location
        decreases |nodes| - i
      {
        if nbr.location == packet.location {
          UpdateAt(nbr, packet, i);
          return 0;
        }
        lastNbr, nbr, i := nbr, nbr.next, i + 1;
      }
      if !memoryLeft {
        return -1;
      }
      Append(lastNbr, packet);
      return 0;
    }

    // The first branch of the loop in neighbor_list_add: the matching node is overwritten field by field.
    method UpdateAt(nbr: Neighbor, packet: Entry, ghost at: nat)
      requires Valid() && at < |nodes| && nodes[at] == nbr
      requires nbr.location == packet.location
      requires forall k :: 0 <= k < at ==> nodes[k].location != packet.location
      modifies this`contents, this`observer, nbr
      ensures Valid() && nodes == old(nodes)
      ensures observer == Told(old(observer), hasCallback, old(contents), contents)
      ensures contents == Added(old(contents), packet)
    {
      hide LooksSame, DistinctLocations, Added, Visible;
      ghost var list := contents;
      var isChanged := nbr.Overwrite(packet);
      contents := contents[at := packet];
      UpdateFacts(list, packet, at);
      NotifyIf(isChanged, list);
    }

    // The end of neighbor_list_add: a new node goes behind the last one.
    method Append(lastNbr: Neighbor?, packet: Entry)
      requires Valid()
      requires lastNbr == if nodes == [] then null else nodes[|nodes| - 1]
      requires forall k :: 0 <= k < |nodes| ==> nodes[k].location != packet.location
      modifies this`neighborList, this`nodes, this`contents, this`repr, this`observer, repr
      ensures Valid() && observer == Told(old(observer), hasCallback, old(contents), contents)
      ensures fresh(repr - old(repr))
      ensures contents == Added(old(contents), packet)
    {
      hide LooksSame, DistinctLocations, Added, Linked;
      AppendFacts(contents, packet);
      var nbr := new Neighbor(packet);
      LinkLast(lastNbr, nbr);
      NotifyIf(true, old(contents));
    }

    method LinkLast(lastNbr: Neighbor?, nbr: Neighbor)
      requires Intact() && nbr !in repr && nbr.next == null
      requires lastNbr == if nodes == [] then null else nodes[|nodes| - 1]
      modifies this`neighborList, this`nodes, this`contents, this`repr, if lastNbr == null then {} else {lastNbr}
      ensures Intact() && repr == old(repr) + {nbr}
      ensures contents == old(contents) + [nbr.Value()]
    {
      hide Acyclic;
      AcyclicAppend(nodes, nbr);
      if nodes != [] {
        AcyclicAt(nodes, |nodes| - 1);
      }
      if lastNbr == null {
        neighborList := nbr;
      } else {
        lastNbr.next := nbr;
      }
      nodes, contents, repr := nodes + [nbr], contents + [nbr.Value()], repr + {nbr};
    }

    method CheckTimeout(now: nat) returns (code: int)
      requires Valid()
      modifies this`neighborList, this`nodes, this`contents, this`observer, repr
      ensures Valid() && observer == Told(old(observer), hasCallback, old(contents), contents)
      ensures code == if neighborTimeout != 0 && now == 0 then -1 else 0
      ensures contents == Checked(old(contents), now, neighborTimeout)
      ensures neighborTimeout == 0 || now == 0 ==> contents == old(contents)
      ensures neighborTimeout != 0 && 0 < now < 0x1_0000_0000_0000_0000 ==>
                forall e: Entry :: 0 <= e.updateTime < 0x1_0000_0000_0000_0000 ==>
                  (e in contents <==>
                     && e in old(contents)
                     && (|| (e.updateTime <= now && now - e.updateTime < neighborTimeout)
                         || (now < e.updateTime && now + 0x1_0000_0000_0000_0000 - e.updateTime < neighborTimeout)))
    {
      if neighborTimeout == 0 {
        return 0;
      }
      if now == 0 {
        return -1;
      }
      hide LooksSame, DistinctLocations, Unexpired;
      ExpiryFacts(contents, now, neighborTimeout);
      ghost var list := contents;
      var isChanged := RemoveExpired(now);
      NotifyIf(isChanged, list);
      if now < 0x1_0000_0000_0000_0000 {
        forall e: Entry | 0 <= e.updateTime < 0x1_0000_0000_0000_0000 {
          UnexpiredExactly(list, now, neighborTimeout, e);
        }
      }
      return 0;
    }

    // The state of the loop of lssdp_neighbor_check_timeout: `j` entries of `list` were looked at, `i`
    // of them are still there, `nbr` is the next one and `prev` the one before it.
    ghost predicate Scanning(list: seq<Entry>, now: nat, i: nat, j: nat, prev: Neighbor?, nbr: Neighbor?,
                             isChanged: bool)
      reads this, repr
    {
      && Intact()
      && i <= |nodes| && j <= |list| && |nodes| - i == |list| - j
      && nbr == At(nodes, i)
      && prev == (if i == 0 then null else nodes[i - 1])
      && i == Kept(list, j, now, neighborTimeout)
      && contents == Filtering(list, j, now, neighborTimeout)
      && i <= j && (isChanged <==> i < j)
    }

    method RemoveExpired(now: nat) returns (isChanged: bool)
      requires Intact()
      modifies this`neighborList, this`nodes, this`contents, repr
      ensures Intact()
      ensures contents == Unexpired(old(contents), now, neighborTimeout)
      ensures isChanged <==> |contents| != |old(contents)|
    {
      hide *;
      ghost var list := contents;
      ghost var i, j := 0, 0;
      ScanBegins(now);
      isChanged := false;
      var prev: Neighbor? := null;
      var nbr := neighborList;
      while nbr != null
        invariant j <= |list|
        invariant Scanning(list, now, i, j, prev, nbr, isChanged)
        decreases |list| - j
      {
        prev, nbr, isChanged, i := Visit(prev, nbr, isChanged, now, list, i, j);
        j := j + 1;
      }
      ScanEnds(list, now, i, j, prev, isChanged);
    }

    lemma ScanBegins(now: nat)
      requires Intact()
      ensures Scanning(contents, now, 0, 0, null, neighborList, false)
    {
      hide Filtering, Kept;
      FilteringEnds(contents, now, neighborTimeout);
    }

    lemma ScanEnds(list: seq<Entry>, now: nat, i: nat, j: nat, prev: Neighbor?, isChanged: bool)
      requires Scanning(list, now, i, j, prev, null, isChanged)
      ensures Intact() && contents == Unexpired(list, now, neighborTimeout)
      ensures isChanged <==> |contents| != |list|
    {
      hide Filtering, Kept;
      FilteringEnds(list, now, neighborTimeout);
    }

    // One round of the loop.
    method Visit(before: Neighbor?, here: Neighbor, changed: bool,
                 now: nat, ghost list: seq<Entry>, ghost i: nat, ghost j: nat)
      returns (prev: Neighbor?, nbr: Neighbor?, isChanged: bool, ghost next: nat)
      requires Scanning(list, now, i, j, before, here, changed)
      modifies this`neighborList, this`nodes, this`contents, repr
      ensures j < |list| && Scanning(list, now, next, j + 1, prev, nbr, isChanged)
    {
      hide Filtering, Kept, Intact, Alive, Without;
      SpineAt(i);
      FilteringStep(list, j, now, neighborTimeout, contents, i);
      if Alive(here.Value(), now, neighborTimeout) {
        prev, nbr, isChanged, next := here, here.next, changed, i + 1;
      } else {
        nbr := RemoveAt(before, here, i);
        prev, isChanged, next := before, true, i;
      }
    }

    lemma SpineAt(at: nat)
      requires Intact() && at <= |nodes|
      ensures neighborList == At(nodes, 0) && |contents| == |nodes|
      ensures at < |nodes| ==> nodes[at].Value() == contents[at] && nodes[at].next == At(nodes, at + 1)
      ensures forall k :: 0 <= k < |nodes| ==> nodes[k] in repr
      ensures at < |nodes| ==> forall k :: 0 <= k < |nodes| && k != at ==> nodes[k] != nodes[at]
    {
    }

    // Unlinks one node, as the loop of lssdp_neighbor_check_timeout does; the node is freed after it.
    method RemoveAt(prev: Neighbor?, nbr: Neighbor, ghost at: nat) returns (following: Neighbor?)
      requires Intact() && at < |nodes| && nodes[at] == nbr
      requires prev == if at == 0 then null else nodes[at - 1]
      modifies this`neighborList, this`nodes, this`contents, if prev == null then {} else {prev}
      ensures Intact() && |contents| == |nodes| == |old(nodes)| - 1
      ensures contents == Without(old(contents), at)
      ensures following == At(nodes, at) && prev == if at == 0 then null else nodes[at - 1]
    {
      hide Acyclic, Without;
      ghost var was, list := nodes, contents;
      AcyclicAt(was, at);
      if at > 0 {
        AcyclicAt(was, at - 1);
      }
      following := nbr.next;
      if prev == null {
        neighborList := following;
      } else {
        prev.next := following;
      }
      nodes, contents := Without(was, at), Without(list, at);
    }

    method RemoveAll()
      requires Valid()
      modifies this`neighborList, this`nodes, this`contents, this`observer
      ensures Valid() && observer == Told(old(observer), hasCallback, old(contents), contents)
      ensures contents == []
    {
      ghost var list := contents;
      if neighborList == null {
        return;
      }
      neighborList, nodes, contents := null, [], [];
      NotifyIf(true, list);
    }
  }
}
