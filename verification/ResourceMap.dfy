// The resources a client has open: the map resource_adapters_ of a ClientAdapter, the answers it sends
// and the fate of each adapter object.
//
// What the core, the allocators and thread creation answer is part of a request. The class does in
// place what the functions on State describe; the lemmas are about those functions.
module ResourceMap {
  import opened Wrappers

  type Id = nat

  datatype Kind = Stream | Publisher

  // `open` is whether the adapter still has its core object: a publisher adapter gives it up when the
  // core is asked to close it, whatever the core answers. `allocators` are those a publisher adapter has
  // mapped memory with.
  datatype Adapter = Adapter(kind: Kind, monitoring: bool, open: bool, allocators: seq<Id>)

  datatype Answer = OpenedOk(id: Id) | OpenFailed | ClosedOk(id: Id) | CloseFailed(id: Id) | NotFound(id: Id)

  // What happens to the adapter objects.
  datatype Event = Created(id: Id) | Stopped(id: Id) | Closed(id: Id) | RestartTried(id: Id) | Deleted(id: Id)

  datatype State = State(resources: map<Id, Adapter>, answers: seq<Answer>, log: seq<Event>)

  // How closing one adapter goes: which allocators let go of their mappings, whether the core closes the
  // object, and whether a thread can be created to monitor it again.
  datatype Closing = Closing(exits: set<Id>, coreCloses: bool, threadStarts: bool)

  // Messages of the client, and the first use of an allocator by the thread of a publisher adapter.
  datatype Request =
    | Open(kind: Kind, hasData: bool, core: Option<Id>, threadStarts: bool)
    | Close(kind: Kind, id: Id, closing: Closing)
    | Push(id: Id)
    | Map(id: Id, allocator: Id)

  predicate AllExit(a: Adapter, c: Closing) {
    forall i :: 0 <= i < |a.allocators| ==> a.allocators[i] in c.exits
  }

  // StreamAdapter::Close asks the core; PublisherAdapter::Close first lets go of all its mappings, and
  // does not ask the core again once it has no publisher.
  predicate Closes(a: Adapter, c: Closing) {
    match a.kind
    case Stream => c.coreCloses
    case Publisher => AllExit(a, c) && (a.open ==> c.coreCloses)
  }

  // What Close leaves of an adapter, whatever its result.
  function AfterClose(a: Adapter, c: Closing): Adapter {
    if a.kind == Publisher && AllExit(a, c) then a.(open := false, allocators := []) else a
  }

  // The adapter that stays in the map after a failed close: it monitors again if it still can.
  function Kept(a: Adapter, c: Closing): Adapter {
    AfterClose(a, c).(monitoring := AfterClose(a, c).open && c.threadStarts)
  }

  lemma StoppedCloses(a: Adapter, c: Closing)
    ensures Closes(a.(monitoring := false), c) == Closes(a, c)
    ensures AfterClose(a.(monitoring := false), c) == AfterClose(a, c).(monitoring := false)
  {
  }

  // An adapter that cannot be monitored: a stream adapter is deleted before the core closes the stream,
  // a publisher adapter closes its publisher itself.
  function Abandoned(kind: Kind, id: Id): seq<Event> {
    if kind == Stream then [Created(id), Deleted(id), Closed(id)] else [Created(id), Closed(id), Deleted(id)]
  }

  function Opened(s: State, r: Request): State
    requires r.Open?
  {
    if !r.hasData || r.core.None? then s.(answers := s.answers + [OpenFailed])
    else
      var id := r.core.value;
      if r.threadStarts then
        State(s.resources[id := Adapter(r.kind, true, true, [])], s.answers + [OpenedOk(id)], s.log + [Created(id)])
      else
        State(s.resources, s.answers + [OpenFailed], s.log + Abandoned(r.kind, id))
  }

  function Removed(s: State, r: Request): State
    requires r.Close?
  {
    var id := r.id;
    if id !in s.resources then s.(answers := s.answers + [NotFound(id)])
    else if Closes(s.resources[id], r.closing) then
      State(s.resources - {id}, s.answers + [ClosedOk(id)], s.log + [Stopped(id), Closed(id), Deleted(id)])
    else
      State(s.resources[id := Kept(s.resources[id], r.closing)], s.answers + [CloseFailed(id)],
            s.log + [Stopped(id), Closed(id), RestartTried(id)])
  }

  function Handled(s: State, r: Request): State {
    match r
    case Open(_, _, _, _) => Opened(s, r)
    case Close(_, _, _) => Removed(s, r)
    case Push(id) => if id in s.resources then s else s.(answers := s.answers + [NotFound(id)])
    case Map(id, k) => Mapped(s, id, k)
  }

  // Only an adapter that monitors maps memory, and each allocator is noted once.
  function Mapped(s: State, id: Id, k: Id): State {
    if id in s.resources && s.resources[id].kind == Publisher && s.resources[id].monitoring
       && k !in s.resources[id].allocators
    then s.(resources := s.resources[id := s.resources[id].(allocators := s.resources[id].allocators + [k])])
    else s
  }

  // The core hands out ids that are not in the map, and a close message names a resource of its kind.
  predicate Expected(s: State, r: Request) {
    match r
    case Open(_, _, core, _) => core.Some? ==> core.value !in s.resources
    case Close(kind, id, _) => id in s.resources ==> s.resources[id].kind == kind
    case Push(_) => true
    case Map(_, _) => true
  }

  // Nothing else is assumed of a request.
  lemma ExpectedExactly(s: State, r: Request)
    ensures !Expected(s, r) <==>
              || (r.Open? && r.core.Some? && r.core.value in s.resources)
              || (r.Close? && r.id in s.resources && s.resources[r.id].kind != r.kind)
  {
  }

  // ---- Histories ----

  // The ids whose last open or close answered with success was an open.
  function Live(answers: seq<Answer>): set<Id> {
    if answers == [] then {} else LiveAfter(Live(answers[..|answers| - 1]), answers[|answers| - 1])
  }

  function LiveAfter(before: set<Id>, a: Answer): set<Id> {
    match a
    case OpenedOk(id) => before + {id}
    case ClosedOk(id) => before - {id}
    case _ => before
  }

  function Count(log: seq<Event>, e: Event): nat {
    if log == [] then 0 else Count(log[..|log| - 1], e) + (if log[|log| - 1] == e then 1 else 0)
  }

  // Where the adapter of an id is in its life. From its creation it is stopped and closed, again and
  // again while closing fails, and then deleted; one that was never monitored is closed and deleted, in
  // either order. Only then can another one with the same id be created.
  datatype Phase = Gone | New | Running | Halted | Shut | ShutUnused | DeletedOpen | Impossible

  function NextPhase(p: Phase, e: Event): Phase {
    match (p, e)
    case (Gone, Created(_)) => New
    case (New, Stopped(_)) => Halted
    case (Running, Stopped(_)) => Halted
    case (Halted, Closed(_)) => Shut
    case (Shut, RestartTried(_)) => Running
    case (Shut, Deleted(_)) => Gone
    case (New, Closed(_)) => ShutUnused
    case (ShutUnused, Deleted(_)) => Gone
    case (New, Deleted(_)) => DeletedOpen
    case (DeletedOpen, Closed(_)) => Gone
    case _ => Impossible
  }

  function PhaseOf(log: seq<Event>, id: Id): Phase {
    if log == [] then Gone
    else
      var before, e := PhaseOf(log[..|log| - 1], id), log[|log| - 1];
      if e.id == id then NextPhase(before, e) else before
  }

  // Exactly the live ids are in the map, exactly they have an adapter that was created and not deleted,
  // and all events of an id are whole lives of adapters, but for the live one; a publisher adapter that
  // lost its publisher neither monitors nor has mappings.
  ghost predicate Inv(s: State) {
    && s.resources.Keys == Live(s.answers)
    && (forall id :: Count(s.log, Created(id)) - Count(s.log, Deleted(id)) == if id in s.resources then 1 else 0)
    && (forall id :: PhaseOf(s.log, id) == Gone <==> id !in s.resources)
    && (forall id :: id in s.resources ==> PhaseOf(s.log, id) == New || PhaseOf(s.log, id) == Running)
    && (forall id :: id in s.resources && s.resources[id].monitoring ==> s.resources[id].open)
    && (forall id :: id in s.resources && !s.resources[id].open ==> s.resources[id].allocators == [])
  }

  function Init(): State {
    State(map[], [], [])
  }

  ghost predicate IsRun(s: State, run: seq<Request>)
    decreases |run|
  {
    run == [] || (Expected(s, run[0]) && IsRun(Handled(s, run[0]), run[1..]))
  }

  function After(s: State, run: seq<Request>): State
    decreases |run|
  {
    if run == [] then s else After(Handled(s, run[0]), run[1..])
  }

  lemma LiveStep(answers: seq<Answer>, a: Answer)
    ensures Live(answers + [a]) == LiveAfter(Live(answers), a)
  {
    assert (answers + [a])[..|answers|] == answers;
  }

  lemma CountStep(log: seq<Event>, x: Event, e: Event)
    ensures Count(log + [x], e) == Count(log, e) + (if x == e then 1 else 0)
  {
    assert (log + [x])[..|log|] == log;
  }

  lemma CountThree(log: seq<Event>, x: Event, y: Event, z: Event, e: Event)
    ensures Count(log + [x, y, z], e)
         == Count(log, e) + (if x == e then 1 else 0) + (if y == e then 1 else 0) + (if z == e then 1 else 0)
  {
    CountStep(log, x, e);
    CountStep(log + [x], y, e);
    CountStep(log + [x] + [y], z, e);
    assert log + [x, y, z] == log + [x] + [y] + [z];
  }

  lemma PhaseStep(log: seq<Event>, x: Event, id: Id)
    ensures PhaseOf(log + [x], id) == if x.id == id then NextPhase(PhaseOf(log, id), x) else PhaseOf(log, id)
  {
    assert (log + [x])[..|log|] == log;
  }

  lemma PhaseThree(log: seq<Event>, x: Event, y: Event, z: Event, id: Id)
    requires x.id == y.id == z.id
    ensures PhaseOf(log + [x, y, z], id)
         == if x.id == id then NextPhase(NextPhase(NextPhase(PhaseOf(log, id), x), y), z) else PhaseOf(log, id)
  {
    PhaseStep(log, x, id);
    PhaseStep(log + [x], y, id);
    PhaseStep(log + [x] + [y], z, id);
    assert log + [x, y, z] == log + [x] + [y] + [z];
  }

  lemma OpenKeeps(s: State, r: Request)
    requires Inv(s) && Expected(s, r) && r.Open?
    ensures Inv(Opened(s, r))
  {
    hide Live, Count, PhaseOf;
    var t := Opened(s, r);
    LiveStep(s.answers, t.answers[|s.answers|]);
    if r.hasData && r.core.Some? {
      var c := r.core.value;
      forall id
        ensures Count(t.log, Created(id)) - Count(t.log, Deleted(id)) == if id in t.resources then 1 else 0
      {
        CountStep(s.log, Created(c), Created(id));
        CountStep(s.log, Created(c), Deleted(id));
        CountThree(s.log, Created(c), Closed(c), Deleted(c), Created(id));
        CountThree(s.log, Created(c), Closed(c), Deleted(c), Deleted(id));
        CountThree(s.log, Created(c), Deleted(c), Closed(c), Created(id));
        CountThree(s.log, Created(c), Deleted(c), Closed(c), Deleted(id));
      }
      forall id
        ensures PhaseOf(t.log, id) == if id == c then (if c in t.resources then New else Gone) else PhaseOf(s.log, id)
      {
        PhaseStep(s.log, Created(c), id);
        PhaseThree(s.log, Created(c), Closed(c), Deleted(c), id);
        PhaseThree(s.log, Created(c), Deleted(c), Closed(c), id);
      }
    }
  }

  lemma CloseKeeps(s: State, r: Request)
    requires Inv(s) && r.Close?
    ensures Inv(Removed(s, r))
  {
    hide Live, Count, PhaseOf;
    var t := Removed(s, r);
    LiveStep(s.answers, t.answers[|s.answers|]);
    if r.id in s.resources {
      var last := t.log[|s.log| + 2];
      forall id
        ensures Count(t.log, Created(id)) - Count(t.log, Deleted(id)) == if id in t.resources then 1 else 0
      {
        CountThree(s.log, Stopped(r.id), Closed(r.id), last, Created(id));
        CountThree(s.log, Stopped(r.id), Closed(r.id), last, Deleted(id));
      }
      forall id
        ensures PhaseOf(t.log, id) == if id == r.id then (if id in t.resources then Running else Gone) else PhaseOf(s.log, id)
      {
        PhaseThree(s.log, Stopped(r.id), Closed(r.id), last, id);
      }
    }
  }

  lemma StepKeeps(s: State, r: Request)
    requires Inv(s) && Expected(s, r)
    ensures Inv(Handled(s, r))
  {
    hide Live, Count, PhaseOf, Opened, Removed;
    match r
    case Open(_, _, _, _) => OpenKeeps(s, r);
    case Close(_, _, _) => CloseKeeps(s, r);
    case Push(id) => LiveStep(s.answers, NotFound(id));
    case Map(_, _) =>
  }

  lemma {:induction false} RunKeeps(s: State, run: seq<Request>)
    requires Inv(s) && IsRun(s, run)
    ensures Inv(After(s, run))
    decreases |run|
  {
    if run != [] {
      StepKeeps(s, run[0]);
      RunKeeps(Handled(s, run[0]), run[1..]);
    }
  }

  // Between messages the keys of the map are exactly the ids whose open was answered OK and whose
  // close was not yet answered OK, and every other adapter ever created has been deleted, once.
  lemma KeysAreLive(run: seq<Request>)
    requires IsRun(Init(), run)
    ensures var s := After(Init(), run);
            && s.resources.Keys == Live(s.answers)
            && forall id :: Count(s.log, Created(id)) == Count(s.log, Deleted(id)) + if id in s.resources then 1 else 0
  {
    RunKeeps(Init(), run);
  }

  // The answer to each request: exactly one, but none for a message that is handed on or for a mapping.
  lemma AnswersSpelledOut(s: State, r: Request)
    ensures var more := Handled(s, r).answers;
      match r
      case Open(_, hasData, core, threadStarts) =>
        more == s.answers + [if hasData && core.Some? && threadStarts then OpenedOk(core.value) else OpenFailed]
      case Close(_, id, _) =>
        more == s.answers + [if id !in s.resources then NotFound(id)
                             else if id in Handled(s, r).resources then CloseFailed(id) else ClosedOk(id)]
      case Push(id) => more == s.answers + (if id in s.resources then [] else [NotFound(id)])
      case Map(_, _) => more == s.answers
  {
  }

  // A resource keeps the kind it was opened with until it is closed.
  lemma KindsAreKept(s: State, r: Request, id: Id)
    requires Expected(s, r) && id in Handled(s, r).resources
    ensures id in s.resources ==> Handled(s, r).resources[id].kind == s.resources[id].kind
    ensures id !in s.resources ==> r.Open? && r.core == Some(id) && Handled(s, r).resources[id] == Adapter(r.kind, true, true, [])
  {
  }

  // A failed close leaves the resource in the map, and a later close can still succeed. A publisher that
  // was given up, since its allocators let go and only the core refused, does not monitor any more, and
  // the next close succeeds whatever the core and the allocators answer.
  lemma FailedCloseCanBeRepeated(s: State, r: Request, again: Request)
    requires Inv(s) && r.Close? && r.id in s.resources && !Closes(s.resources[r.id], r.closing)
    requires again.Close? && again.id == r.id
    ensures r.id in Removed(s, r).resources
    ensures again.closing.coreCloses && AllExit(s.resources[r.id], again.closing) ==>
              r.id !in Removed(Removed(s, r), again).resources
    ensures s.resources[r.id].kind == Publisher && AllExit(s.resources[r.id], r.closing) ==>
              r.id !in Removed(Removed(s, r), again).resources && !Removed(s, r).resources[r.id].monitoring
  {
  }

  // ---- Closing everything ----

  function Triple(id: Id): seq<Event> {
    [Stopped(id), Closed(id), Deleted(id)]
  }

  function Triples(ids: seq<Id>): seq<Event> {
    if ids == [] then [] else Triples(ids[..|ids| - 1]) + Triple(ids[|ids| - 1])
  }

  predicate Increasing(ids: seq<Id>) {
    forall i, j :: 0 <= i < j < |ids| ==> ids[i] < ids[j]
  }

  ghost predicate Enumerates(ids: seq<Id>, keys: set<Id>) {
    Increasing(ids) && forall id :: id in ids <==> id in keys
  }

  // The events of closing everything concern each remaining resource once, in the order stop, close,
  // delete, and no other resource.
  function About(log: seq<Event>, id: Id): seq<Event> {
    if log == [] then []
    else About(log[..|log| - 1], id) + (if log[|log| - 1].id == id then [log[|log| - 1]] else [])
  }

  lemma AboutTriple(log: seq<Event>, last: Id, id: Id)
    ensures About(log + Triple(last), id) == About(log, id) + (if last == id then Triple(id) else [])
  {
    AboutStep(log, Stopped(last), id);
    AboutStep(log + [Stopped(last)], Closed(last), id);
    AboutStep(log + [Stopped(last)] + [Closed(last)], Deleted(last), id);
    assert log + Triple(last) == log + [Stopped(last)] + [Closed(last)] + [Deleted(last)];
  }

  lemma AboutStep(log: seq<Event>, e: Event, id: Id)
    ensures About(log + [e], id) == About(log, id) + (if e.id == id then [e] else [])
  {
    assert (log + [e])[..|log|] == log;
  }

  lemma {:induction false} TriplesAbout(ids: seq<Id>, id: Id)
    requires Increasing(ids)
    ensures About(Triples(ids), id) == if id in ids then Triple(id) else []
    decreases |ids|
  {
    if ids != [] {
      var front, last := ids[..|ids| - 1], ids[|ids| - 1];
      TriplesAbout(front, id);
      AboutTriple(Triples(front), last, id);
      assert ids == front + [last];
      assert id in ids <==> id in front || id == last;
      assert id == last ==> id !in front;
    }
  }

  lemma {:induction false} TriplesCount(log: seq<Event>, ids: seq<Id>, id: Id)
    requires Increasing(ids)
    ensures Count(log + Triples(ids), Created(id)) == Count(log, Created(id))
    ensures Count(log + Triples(ids), Deleted(id)) == Count(log, Deleted(id)) + if id in ids then 1 else 0
    ensures PhaseOf(log + Triples(ids), id)
         == if id in ids then NextPhase(NextPhase(NextPhase(PhaseOf(log, id), Stopped(id)), Closed(id)), Deleted(id))
            else PhaseOf(log, id)
    decreases |ids|
  {
    hide Count, PhaseOf, NextPhase;
    if ids == [] {
      assert log + Triples(ids) == log;
    } else {
      var front, last := ids[..|ids| - 1], ids[|ids| - 1];
      TriplesCount(log, front, id);
      CountThree(log + Triples(front), Stopped(last), Closed(last), Deleted(last), Created(id));
      CountThree(log + Triples(front), Stopped(last), Closed(last), Deleted(last), Deleted(id));
      PhaseThree(log + Triples(front), Stopped(last), Closed(last), Deleted(last), id);
      assert log + Triples(ids) == log + Triples(front) + Triple(last);
      assert ids == front + [last];
      assert id in ids <==> id in front || id == last;
      assert id == last ==> id !in front;
    }
  }

  // When the connection has ended, each adapter that was ever created has been deleted exactly once, all
  // events of an id are whole lives from creation to deletion, and each resource still open at that time
  // got stop, close and delete once, in that order.
  lemma EverythingDeleted(run: seq<Request>, order: seq<Id>, id: Id)
    requires IsRun(Init(), run) && Enumerates(order, After(Init(), run).resources.Keys)
    ensures var log := After(Init(), run).log + Triples(order);
            && Count(log, Created(id)) == Count(log, Deleted(id))
            && PhaseOf(log, id) == Gone
            && About(Triples(order), id) == if id in After(Init(), run).resources then Triple(id) else []
  {
    hide Inv, Init, IsRun, After, Live, Count, PhaseOf, Triples, About, NextPhase;
    InitInv();
    RunKeeps(Init(), run);
    var s := After(Init(), run);
    InvAt(s, id);
    TriplesCount(s.log, order, id);
    TriplesAbout(order, id);
  }

  lemma InitInv()
    ensures Inv(Init())
  {
  }

  lemma InvAt(s: State, id: Id)
    requires Inv(s)
    ensures Count(s.log, Created(id)) == Count(s.log, Deleted(id)) + if id in s.resources then 1 else 0
    ensures id !in s.resources ==> PhaseOf(s.log, id) == Gone
    ensures id in s.resources ==>
              NextPhase(NextPhase(NextPhase(PhaseOf(s.log, id), Stopped(id)), Closed(id)), Deleted(id)) == Gone
  {
    hide Count, PhaseOf, Live;
  }

  predicate IsLeast(s: set<Id>, x: Id) {
    x in s && forall k :: k in s ==> x <= k
  }

  lemma {:induction false} LeastExists(s: set<Id>) returns (least: Id)
    requires s != {}
    ensures IsLeast(s, least)
    decreases |s|
  {
    var some :| some in s;
    if s - {some} == {} {
      least := some;
      forall k | k in s ensures k == some {
        assert k !in s - {some};
      }
    } else {
      var low := LeastExists(s - {some});
      least := if some < low then some else low;
      forall k | k in s ensures least <= k {
        assert k == some || k in s - {some};
      }
    }
  }

  ghost predicate AllBelow(ids: seq<Id>, todo: set<Id>) {
    forall a, b :: a in ids && b in todo ==> a < b
  }

  lemma OrderGrows(ids: seq<Id>, todo: set<Id>, id: Id, log: seq<Event>)
    requires Increasing(ids) && AllBelow(ids, todo) && IsLeast(todo, id)
    ensures Increasing(ids + [id]) && AllBelow(ids + [id], todo - {id})
    ensures forall x :: x in ids + [id] || x in todo - {id} <==> x in ids || x in todo
    ensures log + Triples(ids) + Triple(id) == log + Triples(ids + [id])
  {
    hide Triples, Triple;
    TriplesGrow(ids, id, log);
    assert forall x :: x in ids + [id] <==> x in ids || x == id;
    assert forall i :: 0 <= i < |ids| ==> ids[i] in ids;
  }

  lemma TriplesGrow(ids: seq<Id>, id: Id, log: seq<Event>)
    ensures log + Triples(ids) + Triple(id) == log + Triples(ids + [id])
  {
    assert (ids + [id])[..|ids|] == ids;
  }

  // ---- The class ----

  class ClientAdapter {
    var resourceAdapters: map<Id, Adapter>
    // The secondary connection that takes over the frames, by its id.
    var secondaryAdapter: Option<Id>
    ghost var answers: seq<Answer>
    ghost var log: seq<Event>

    constructor ()
      ensures View() == Init() && secondaryAdapter == None
    {
      resourceAdapters, secondaryAdapter, answers, log := map[], None, [], [];
    }

    ghost function View(): State
      reads this
    {
      State(resourceAdapters, answers, log)
    }

    method SendReply(answer: Answer)
      modifies this`answers
      ensures answers == old(answers) + [answer]
    {
      answers := answers + [answer];
    }

    // OpenStream and CreateStreamAdapter, or OpenPublisher and CreatePublisherAdapter.
    method OpenResource(kind: Kind, hasData: bool, core: Option<Id>, threadStarts: bool)
      requires core.Some? ==> core.value !in resourceAdapters
      modifies this`resourceAdapters, this`answers, this`log
      ensures View() == Opened(old(View()), Open(kind, hasData, core, threadStarts))
      ensures var done := hasData && core.Some? && threadStarts;
        && resourceAdapters == (if done then old(resourceAdapters)[core.value := Adapter(kind, true, true, [])]
                                else old(resourceAdapters))
        && answers == old(answers) + [if done then OpenedOk(core.value) else OpenFailed]
        && log == old(log) + (if !hasData || core.None? then []
                              else if threadStarts then [Created(core.value)]
                              else if kind == Stream then [Created(core.value), Deleted(core.value), Closed(core.value)]
                              else [Created(core.value), Closed(core.value), Deleted(core.value)])
    {
      if !hasData || core.None? {
        SendReply(OpenFailed);
        return;
      }
      var id := core.value;
      log := log + [Created(id)];
      if !threadStarts {
        if kind == Stream {
          log := log + [Deleted(id)] + [Closed(id)];
        } else {
          log := log + [Closed(id)] + [Deleted(id)];
        }
        SendReply(OpenFailed);
        return;
      }
      resourceAdapters := resourceAdapters[id := Adapter(kind, true, true, [])];
      SendReply(OpenedOk(id));
    }

    method StopMonitoring(id: Id)
      requires id in resourceAdapters
      modifies this`resourceAdapters, this`log
      ensures resourceAdapters == old(resourceAdapters)[id := old(resourceAdapters)[id].(monitoring := false)]
      ensures log == old(log) + [Stopped(id)]
    {
      resourceAdapters := resourceAdapters[id := resourceAdapters[id].(monitoring := false)];
      log := log + [Stopped(id)];
    }

    // The adapter's Close: its result, and what it leaves of the adapter.
    method CloseAdapter(id: Id, closing: Closing) returns (ok: bool)
      requires id in resourceAdapters
      modifies this`resourceAdapters, this`log
      ensures ok == Closes(old(resourceAdapters)[id], closing)
      ensures resourceAdapters == old(resourceAdapters)[id := AfterClose(old(resourceAdapters)[id], closing)]
      ensures var a := old(resourceAdapters)[id];
              var free := forall i :: 0 <= i < |a.allocators| ==> a.allocators[i] in closing.exits;
        && (a.kind == Stream ==> ok == closing.coreCloses && resourceAdapters == old(resourceAdapters))
        && (a.kind == Publisher && !free ==> !ok && resourceAdapters == old(resourceAdapters))
        && (a.kind == Publisher && free ==>
              && ok == (!a.open || closing.coreCloses)
              && resourceAdapters == old(resourceAdapters)[id := Adapter(Publisher, a.monitoring, false, [])])
      ensures log == old(log) + [Closed(id)]
    {
      log := log + [Closed(id)];
      var a := resourceAdapters[id];
      assert resourceAdapters[id := a] == resourceAdapters;
      if a.kind == Stream {
        return closing.coreCloses;
      }
      var i := 0;
      while i < |a.allocators|
        invariant i <= |a.allocators| && forall k :: 0 <= k < i ==> a.allocators[k] in closing.exits
      {
        if a.allocators[i] !in closing.exits {
          return false;
        }
        i := i + 1;
      }
      ok := true;
      if a.open {
        ok := closing.coreCloses;
      }
      resourceAdapters := resourceAdapters[id := a.(open := false, allocators := [])];
    }

    // The first part of PublisherAdapter::MemoryMapping.
    method MapAllocator(id: Id, allocator: Id)
      modifies this`resourceAdapters
      ensures View() == Mapped(old(View()), id, allocator)
      ensures id in resourceAdapters && old(resourceAdapters)[id].kind == Publisher && old(resourceAdapters)[id].monitoring ==>
                allocator in resourceAdapters[id].allocators
    {
      if id in resourceAdapters {
        var a := resourceAdapters[id];
        if a.kind == Publisher && a.monitoring && allocator !in a.allocators {
          resourceAdapters := resourceAdapters[id := a.(allocators := a.allocators + [allocator])];
        }
      }
    }

    // CloseStream or ClosePublisher, with DeleteResourceAdapter.
    method CloseResource(kind: Kind, id: Id, closing: Closing)
      requires id in resourceAdapters ==> resourceAdapters[id].kind == kind
      modifies this`resourceAdapters, this`answers, this`log
      ensures View() == Removed(old(View()), Close(kind, id, closing))
      ensures id !in old(resourceAdapters) ==>
                resourceAdapters == old(resourceAdapters) && answers == old(answers) + [NotFound(id)] && log == old(log)
      ensures id in old(resourceAdapters) && id !in resourceAdapters ==>
                && resourceAdapters == old(resourceAdapters) - {id} && answers == old(answers) + [ClosedOk(id)]
                && log == old(log) + [Stopped(id), Closed(id), Deleted(id)]
      ensures id in resourceAdapters ==>
                && resourceAdapters == old(resourceAdapters)[id := resourceAdapters[id]]
                && answers == old(answers) + [CloseFailed(id)]
                && log == old(log) + [Stopped(id), Closed(id), RestartTried(id)]
    {
      hide Closes, AfterClose;
      if id !in resourceAdapters {
        SendReply(NotFound(id));
        return;
      }
      StoppedCloses(resourceAdapters[id], closing);
      StopMonitoring(id);
      var ok := CloseAdapter(id, closing);
      if ok {
        resourceAdapters := resourceAdapters - {id};
        log := log + [Deleted(id)];
        SendReply(ClosedOk(id));
      } else {
        var a := resourceAdapters[id];
        resourceAdapters := resourceAdapters[id := a.(monitoring := a.open && closing.threadStarts)];
        log := log + [RestartTried(id)];
        SendReply(CloseFailed(id));
      }
    }

    // The end of a connection: the map is swapped out, then its adapters are stopped, closed and
    // deleted in the order of their ids, whatever the closes answer.
    method CloseAllResource() returns (ghost order: seq<Id>)
      modifies this`resourceAdapters, this`answers, this`log
      ensures resourceAdapters == map[] && answers == old(answers)
      ensures Enumerates(order, old(resourceAdapters).Keys)
      ensures log == old(log) + Triples(order)
    {
      var tmpList := resourceAdapters.Keys;
      resourceAdapters := map[];
      order := [];
      assert log == old(log) + Triples(order);
      while tmpList != {}
        invariant resourceAdapters == map[] && answers == old(answers)
        invariant Increasing(order) && AllBelow(order, tmpList)
        invariant forall id :: id in old(resourceAdapters) <==> id in order || id in tmpList
        invariant log == old(log) + Triples(order)
        decreases |tmpList|
      {
        ghost var least := LeastExists(tmpList);
        var id :| IsLeast(tmpList, id);
        CloseForGood(id);
        OrderGrows(order, tmpList, id, old(log));
        order := order + [id];
        tmpList := tmpList - {id};
      }
    }

    // One round of the loop of CloseAllResource.
    method CloseForGood(id: Id)
      modifies this`log
      ensures log == old(log) + Triple(id)
    {
      log := log + [Stopped(id)];
      log := log + [Closed(id)];
      log := log + [Deleted(id)];
    }

    method SetSecondaryAdapter(stream: Id, client: Option<Id>) returns (result: bool)
      modifies this`secondaryAdapter
      ensures result <==> stream in resourceAdapters
      ensures secondaryAdapter == if result then client else old(secondaryAdapter)
    {
      result := stream in resourceAdapters;
      if result {
        secondaryAdapter := client;
      }
    }

    // The end of the receiving thread of a primary connection.
    method OnMonitoringFinished() returns (ghost order: seq<Id>)
      modifies this
      ensures secondaryAdapter == None
      ensures resourceAdapters == map[] && answers == old(answers)
      ensures Enumerates(order, old(resourceAdapters).Keys)
      ensures log == old(log) + Triples(order)
    {
      secondaryAdapter := None;
      order := CloseAllResource();
    }
  }

  // ---- Secondary connections ----

  // The first client that has the stream open, or the number of clients.
  ghost function Owner(clients: seq<ClientAdapter>, stream: Id): (i: nat)
    reads clients
    ensures i <= |clients|
    ensures i < |clients| ==> stream in clients[i].resourceAdapters
    ensures forall k :: 0 <= k < i ==> stream !in clients[k].resourceAdapters
  {
    if clients == [] || stream in clients[0].resourceAdapters then 0 else Owner(clients[1..], stream) + 1
  }

  // The loop of ClientAdapterManager::SetSecondaryAdapter: only the first owner of the stream changes.
  method SetSecondaryAdapter(clients: seq<ClientAdapter>, stream: Id, client: Option<Id>) returns (result: bool)
    requires forall i, j :: 0 <= i < j < |clients| ==> clients[i] != clients[j]
    modifies clients
    ensures result <==> Owner(clients, stream) < |clients|
    ensures forall i :: 0 <= i < |clients| ==>
              && clients[i].secondaryAdapter
                 == (if i == Owner(clients, stream) then client else old(clients[i].secondaryAdapter))
              && clients[i].resourceAdapters == old(clients[i].resourceAdapters)
              && clients[i].View() == old(clients[i].View())
  {
    var i := 0;
    while i < |clients|
      invariant i <= Owner(clients, stream) && i <= |clients|
      invariant forall k :: 0 <= k < |clients| ==> clients[k].secondaryAdapter == old(clients[k].secondaryAdapter)
      invariant forall k :: 0 <= k < |clients| ==> clients[k].resourceAdapters == old(clients[k].resourceAdapters)
      invariant forall k :: 0 <= k < |clients| ==> clients[k].View() == old(clients[k].View())
    {
      var found := clients[i].SetSecondaryAdapter(stream, client);
      if found {
        return true;
      }
      i := i + 1;
    }
    return false;
  }

  class SecondaryClientAdapter {
    const id: Id
    // 0 while not attached.
    var savedStreamId: Id

    constructor (id: Id)
      ensures this.id == id && savedStreamId == 0
    {
      this.id, savedStreamId := id, 0;
    }

    // A connection that is attached refuses to be attached again.
    method ConnectToPrimaryAdapter(clients: seq<ClientAdapter>, stream: Id) returns (ok: bool)
      requires forall i, j :: 0 <= i < j < |clients| ==> clients[i] != clients[j]
      modifies this, clients
      ensures ok <==> old(savedStreamId) == 0 && old(Owner(clients, stream)) < |clients|
      ensures savedStreamId == if ok then stream else old(savedStreamId)
      ensures forall i :: 0 <= i < |clients| ==>
                && clients[i].secondaryAdapter
                   == (if ok && i == old(Owner(clients, stream)) then Some(id) else old(clients[i].secondaryAdapter))
                && clients[i].View() == old(clients[i].View())
    {
      ok := false;
      if savedStreamId == 0 {
        ok := SetSecondaryAdapter(clients, stream, Some(id));
        if ok {
          savedStreamId := stream;
        }
      }
    }

    // Detaching goes by the stream that was attached to.
    method OnMonitoringFinished(clients: seq<ClientAdapter>)
      requires forall i, j :: 0 <= i < j < |clients| ==> clients[i] != clients[j]
      modifies this, clients
      ensures savedStreamId == 0
      ensures forall i :: 0 <= i < |clients| ==>
                && clients[i].secondaryAdapter
                   == (if old(savedStreamId) != 0 && i == old(Owner(clients, savedStreamId)) then None
                       else old(clients[i].secondaryAdapter))
                && clients[i].View() == old(clients[i].View())
    {
      if savedStreamId != 0 {
        var _ := SetSecondaryAdapter(clients, savedStreamId, None);
        savedStreamId := 0;
      }
    }
  }
}
