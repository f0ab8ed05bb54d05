// The locks and joins of the multi-server's threads, for any number of clients and resources.
//
// A thread runs blocks, one after the other, each the sequence of lock operations and joins of one
// function of the server; which block comes next is left open. A condition wait gives its mutex back
// and takes it again, so it appears as a release followed by an acquire.
module LockOrder {
  type Id = nat

  datatype Lock =
    | Manager               // ClientAdapterManager::mutex_
    | Resources(client: Id) // ClientAdapter::resource_adapters_mutex_
    | Secondary(client: Id) // ClientAdapter::secondary_adapter_mutex_
    | Messaging(resource: Id) // messaging_mutex_ of a publisher or stream adapter
    | Config                // ConfigManager::mutex_

  // The thread that calls Stop, the listeners, the thread of Monitor, the receiving thread of a client
  // (primary or secondary), and the thread of a resource.
  datatype Thread = Main | Listener(id: Id) | Reaper | Receiver(client: Id) | Worker(resource: Id)

  datatype Op = Acquire(lock: Lock) | Release(lock: Lock) | Join(thread: Thread)

  // The order in which locks may be nested.
  function Rank(l: Lock): nat {
    match l
    case Manager => 0
    case Resources(_) => 1
    case Secondary(_) => 2
    case Messaging(_) => 3
    case Config => 3
  }

  // A thread joins only threads of a lower level.
  function Level(t: Thread): nat {
    match t
    case Main => 3
    case Listener(_) => 2
    case Reaper => 2
    case Receiver(_) => 1
    case Worker(_) => 0
  }

  datatype Block =
    | UseManager                                 // Register, Release, the sections of Monitor and Stop
    | Attach(passed: seq<Id>, found: seq<Id>)    // ClientAdapterManager::SetSecondaryAdapter
    | UseResources(client: Id)                   // insert, erase, find and swap of resource_adapters_
    | UseSecondary(client: Id)                   // SendMessageToClient, OnMonitoringFinished
    | UseMessages(resource: Id)                  // PushMessage, PopMessage without a wait
    | WaitForMessage(resource: Id)               // PopMessage with one wait
    | WaitForRelease                             // Monitor with one wait
    | StopResource(resource: Id)                 // PublisherAdapter::StopMonitoring
    | StopReceiver(client: Id)                   // ClientAdapterBase::Stop
    | StopReaper                                 // ClientAdapterManager::Stop
    | StopListener(id: Id)                       // ClientListenerBase::Stop
    | UseConfig                                  // GetStreamConfigByStreamKey

  function Section(l: Lock): seq<Op> {
    [Acquire(l), Release(l)]
  }

  function Sections(locks: seq<Id>): seq<Op> {
    if locks == [] then [] else Section(Resources(locks[0])) + Sections(locks[1..])
  }

  // ClientAdapter::SetSecondaryAdapter when it owns the stream.
  function Nested(c: Id): seq<Op> {
    [Acquire(Resources(c))] + Section(Secondary(c)) + [Release(Resources(c))]
  }

  // The loop of SetSecondaryAdapter holds the manager's lock; each client is asked under its own lock,
  // and the first one that owns the stream takes the third lock inside.
  function Script(b: Block): seq<Op> {
    match b
    case UseManager => Section(Manager)
    case Attach(passed, found) =>
      [Acquire(Manager)] + Sections(passed) + (if found == [] then [] else Nested(found[0])) + [Release(Manager)]
    case UseResources(c) => Section(Resources(c))
    case UseSecondary(c) => Section(Secondary(c))
    case UseMessages(r) => Section(Messaging(r))
    case WaitForMessage(r) => Section(Messaging(r)) + Section(Messaging(r))
    case WaitForRelease => Section(Manager) + Section(Manager)
    case StopResource(r) => Section(Messaging(r)) + [Join(Worker(r))] + Section(Messaging(r))
    case StopReceiver(c) => [Join(Receiver(c))]
    case StopReaper => Section(Manager) + [Join(Reaper)]
    case StopListener(i) => [Join(Listener(i))]
    case UseConfig => Section(Config)
  }

  // The operations of the functions that join or nest, one by one.
  lemma ScriptsSpelledOut(r: Id, c: Id)
    ensures Script(StopResource(r)) == [Acquire(Messaging(r)), Release(Messaging(r)), Join(Worker(r)),
                                        Acquire(Messaging(r)), Release(Messaging(r))]
    ensures Script(StopReaper) == [Acquire(Manager), Release(Manager), Join(Reaper)]
    ensures Script(StopReceiver(c)) == [Join(Receiver(c))] && Script(StopListener(c)) == [Join(Listener(c))]
    ensures Script(WaitForRelease) == [Acquire(Manager), Release(Manager), Acquire(Manager), Release(Manager)]
  {
  }

  lemma AttachSpelledOut(d: Id, c: Id)
    ensures Script(Attach([d], [c]))
         == [Acquire(Manager), Acquire(Resources(d)), Release(Resources(d)),
             Acquire(Resources(c)), Acquire(Secondary(c)), Release(Secondary(c)), Release(Resources(c)),
             Release(Manager)]
  {
    assert [d][1..] == [] && Sections([d]) == Section(Resources(d)) + [];
  }

  // Which thread runs which functions. Deleting a client closes its resources once more, so the
  // threads that delete clients run those blocks too.
  predicate MayRun(t: Thread, b: Block) {
    match b
    case UseManager => !t.Worker?
    case Attach(_, _) => t.Receiver?
    case UseResources(_) => t.Main? || t.Reaper? || t.Receiver?
    case UseSecondary(_) => t.Receiver? || t.Worker?
    case UseMessages(_) => t.Receiver? || t.Worker?
    case WaitForMessage(_) => t.Worker?
    case WaitForRelease => t.Reaper?
    case StopResource(_) => t.Main? || t.Reaper? || t.Receiver?
    case StopReceiver(_) => t.Main? || t.Reaper?
    case StopReaper => t.Main?
    case StopListener(_) => t.Main?
    case UseConfig => t.Receiver?
  }

  // What each thread does, thread by thread.
  lemma RunsSpelledOut(i: Id, b: Block)
    ensures MayRun(Worker(i), b) <==> b.UseSecondary? || b.UseMessages? || b.WaitForMessage?
    ensures MayRun(Receiver(i), b) <==>
              || b.UseManager? || b.Attach? || b.UseResources? || b.UseSecondary? || b.UseMessages?
              || b.StopResource? || b.UseConfig?
    ensures MayRun(Listener(i), b) <==> b.UseManager?
    ensures MayRun(Reaper, b) <==> b.UseManager? || b.WaitForRelease? || b.StopReceiver? || b.UseResources? || b.StopResource?
    ensures MayRun(Main, b) <==>
              || b.UseManager? || b.StopReaper? || b.StopReceiver? || b.StopListener? || b.UseResources? || b.StopResource?
  {
  }

  // ---- Execution ----

  // What a thread holds, the innermost lock last; the rest of its block; whether it has returned.
  datatype Local = Local(held: seq<Lock>, rest: seq<Op>, ended: bool)

  type State = Thread -> Local

  datatype Action = Begin(block: Block) | Step | End

  function Set(s: State, t: Thread, l: Local): State {
    u => if u == t then l else s(u)
  }

  ghost predicate Free(s: State, l: Lock) {
    forall u :: l !in s(u).held
  }

  // An acquire waits for the lock to be free and a join for the thread to have returned.
  ghost predicate CanStep(s: State, t: Thread) {
    var rest := s(t).rest;
    && rest != []
    && match rest[0]
       case Acquire(l) => Free(s, l)
       case Release(l) => true
       case Join(u) => s(u).ended
  }

  ghost predicate Enabled(s: State, t: Thread, a: Action) {
    match a
    case Begin(b) => !s(t).ended && s(t).rest == [] && MayRun(t, b)
    case Step => CanStep(s, t)
    case End => !s(t).ended && s(t).rest == []
  }

  function Next(s: State, t: Thread, a: Action): State {
    match a
    case Begin(b) => Set(s, t, s(t).(rest := Script(b)))
    case Step => if s(t).rest == [] then s else Set(s, t, Stepped(s(t)))
    case End => Set(s, t, s(t).(ended := true))
  }

  function Stepped(l: Local): Local
    requires l.rest != []
  {
    match l.rest[0]
    case Acquire(k) => Local(l.held + [k], l.rest[1..], l.ended)
    case Release(k) => Local(Dropped(l.held, k), l.rest[1..], l.ended)
    case Join(_) => Local(l.held, l.rest[1..], l.ended)
  }

  function Dropped(held: seq<Lock>, k: Lock): seq<Lock> {
    if held == [] then []
    else if held[|held| - 1] == k then held[..|held| - 1]
    else Dropped(held[..|held| - 1], k) + [held[|held| - 1]]
  }

  function Init(): State {
    t => Local([], [], false)
  }

  ghost predicate IsRun(s: State, run: seq<(Thread, Action)>)
    decreases |run|
  {
    run == []
    || (Enabled(s, run[0].0, run[0].1) && IsRun(Next(s, run[0].0, run[0].1), run[1..]))
  }

  ghost function After(s: State, run: seq<(Thread, Action)>): State
    decreases |run|
  {
    if run == [] then s else After(Next(s, run[0].0, run[0].1), run[1..])
  }

  // A step takes a lock that no thread holds, or goes past a join whose thread has returned.
  lemma StepsWait(s: State, t: Thread)
    requires Enabled(s, t, Step)
    ensures s(t).rest[0].Acquire? ==> forall u :: s(t).rest[0].lock !in s(u).held
    ensures s(t).rest[0].Join? ==> s(s(t).rest[0].thread).ended
    ensures s(t).rest[0].Acquire? ==> s(t).rest[0].lock in Next(s, t, Step)(t).held
  {
  }

  // A thread returns only behind the end of a block, and then for good.
  lemma EndReturns(s: State, t: Thread, a: Action)
    requires Enabled(s, t, a)
    ensures a.End? ==> s(t).rest == [] && Next(s, t, End)(t).ended
    ensures !s(t).ended || a.Step?
  {
  }

  // ---- The discipline ----

  // Locks are taken in order of rank and given back innermost first; nothing is held at a join, which
  // goes to a lower level, nor at the end of the block.
  predicate WellOrdered(t: Thread, held: seq<Lock>, rest: seq<Op>)
    decreases |rest|
  {
    if rest == [] then held == []
    else
      match rest[0]
      case Acquire(l) => (forall h :: h in held ==> Rank(h) < Rank(l)) && WellOrdered(t, held + [l], rest[1..])
      case Release(l) =>
        held != [] && held[|held| - 1] == l && WellOrdered(t, held[..|held| - 1], rest[1..])
      case Join(u) => held == [] && Level(u) < Level(t) && WellOrdered(t, held, rest[1..])
  }

  lemma AcquireOrdered(t: Thread, held: seq<Lock>, l: Lock, rest: seq<Op>)
    requires forall h :: h in held ==> Rank(h) < Rank(l)
    requires WellOrdered(t, held + [l], rest)
    ensures WellOrdered(t, held, [Acquire(l)] + rest)
  {
    assert ([Acquire(l)] + rest)[1..] == rest;
  }

  lemma ReleaseOrdered(t: Thread, held: seq<Lock>, l: Lock, rest: seq<Op>)
    requires WellOrdered(t, held, rest)
    ensures WellOrdered(t, held + [l], [Release(l)] + rest)
  {
    assert ([Release(l)] + rest)[1..] == rest && (held + [l])[..|held|] == held;
  }

  lemma JoinOrdered(t: Thread, u: Thread, rest: seq<Op>)
    requires Level(u) < Level(t) && WellOrdered(t, [], rest)
    ensures WellOrdered(t, [], [Join(u)] + rest)
  {
    assert ([Join(u)] + rest)[1..] == rest;
  }

  lemma SectionOrdered(t: Thread, held: seq<Lock>, l: Lock, rest: seq<Op>)
    requires forall h :: h in held ==> Rank(h) < Rank(l)
    requires WellOrdered(t, held, rest)
    ensures WellOrdered(t, held, Section(l) + rest)
  {
    hide WellOrdered;
    ReleaseOrdered(t, held, l, rest);
    AcquireOrdered(t, held, l, [Release(l)] + rest);
    assert Section(l) + rest == [Acquire(l)] + ([Release(l)] + rest);
  }

  lemma {:induction false} SectionsOrdered(t: Thread, passed: seq<Id>, rest: seq<Op>)
    requires WellOrdered(t, [Manager], rest)
    ensures WellOrdered(t, [Manager], Sections(passed) + rest)
  {
    if passed == [] {
      assert Sections(passed) + rest == rest;
    } else {
      SectionsOrdered(t, passed[1..], rest);
      SectionOrdered(t, [Manager], Resources(passed[0]), Sections(passed[1..]) + rest);
      assert Sections(passed) + rest
          == Section(Resources(passed[0])) + (Sections(passed[1..]) + rest);
    }
  }

  lemma NestedOrdered(t: Thread, c: Id, rest: seq<Op>)
    requires WellOrdered(t, [Manager], rest)
    ensures WellOrdered(t, [Manager], Nested(c) + rest)
  {
    hide WellOrdered;
    var end := [Release(Resources(c))] + rest;
    ReleaseOrdered(t, [Manager], Resources(c), rest);
    SectionOrdered(t, [Manager] + [Resources(c)], Secondary(c), end);
    AcquireOrdered(t, [Manager], Resources(c), Section(Secondary(c)) + end);
    assert Nested(c) + rest == [Acquire(Resources(c))] + (Section(Secondary(c)) + end);
  }

  lemma AttachOrdered(t: Thread, passed: seq<Id>, found: seq<Id>)
    ensures WellOrdered(t, [], Script(Attach(passed, found)))
  {
    hide WellOrdered, Nested, Sections;
    EmptyOrdered(t);
    var end := [Release(Manager)];
    ReleaseOrdered(t, [], Manager, []);
    assert [Release(Manager)] + [] == end && [] + [Manager] == [Manager];
    var last := if found == [] then [] else Nested(found[0]);
    if found == [] {
      assert last + end == end;
    } else {
      NestedOrdered(t, found[0], end);
    }
    SectionsOrdered(t, passed, last + end);
    AcquireOrdered(t, [], Manager, Sections(passed) + (last + end));
    Regroup([Acquire(Manager)], Sections(passed), last, end);
  }

  lemma EmptyOrdered(t: Thread)
    ensures WellOrdered(t, [], [])
  {
  }

  lemma Regroup(a: seq<Op>, b: seq<Op>, c: seq<Op>, d: seq<Op>)
    ensures a + b + c + d == a + (b + (c + d))
  {
  }

  // Every function of the server keeps the discipline in every thread that runs it.
  lemma ScriptsOrdered(t: Thread, b: Block)
    requires MayRun(t, b)
    ensures WellOrdered(t, [], Script(b))
  {
    match b
    case UseManager => Alone(t, Manager);
    case Attach(passed, found) => AttachOrdered(t, passed, found);
    case UseResources(c) => Alone(t, Resources(c));
    case UseSecondary(c) => Alone(t, Secondary(c));
    case UseMessages(r) => Alone(t, Messaging(r));
    case WaitForMessage(r) =>
      Alone(t, Messaging(r));
      SectionOrdered(t, [], Messaging(r), Section(Messaging(r)));
    case WaitForRelease =>
      Alone(t, Manager);
      SectionOrdered(t, [], Manager, Section(Manager));
    case StopResource(r) =>
      Alone(t, Messaging(r));
      JoinOrdered(t, Worker(r), Section(Messaging(r)));
      SectionOrdered(t, [], Messaging(r), [Join(Worker(r))] + Section(Messaging(r)));
      assert Script(b) == Section(Messaging(r)) + ([Join(Worker(r))] + Section(Messaging(r)));
    case StopReceiver(c) =>
      JoinOrdered(t, Receiver(c), []);
      assert [Join(Receiver(c))] + [] == Script(b);
    case StopReaper =>
      JoinOrdered(t, Reaper, []);
      assert [Join(Reaper)] + [] == [Join(Reaper)];
      SectionOrdered(t, [], Manager, [Join(Reaper)]);
    case StopListener(i) =>
      JoinOrdered(t, Listener(i), []);
      assert [Join(Listener(i))] + [] == Script(b);
    case UseConfig => Alone(t, Config);
  }

  lemma Alone(t: Thread, l: Lock)
    ensures WellOrdered(t, [], Section(l))
  {
    SectionOrdered(t, [], l, []);
    assert Section(l) + [] == Section(l);
  }

  // ---- Every reachable state ----

  ghost predicate Inv(s: State) {
    && (forall t :: WellOrdered(t, s(t).held, s(t).rest))
    && (forall t :: s(t).ended ==> s(t).rest == [])
    && (forall t, u, l :: l in s(t).held && l in s(u).held ==> t == u)
  }

  lemma StepKeeps(s: State, t: Thread, a: Action)
    requires Inv(s) && Enabled(s, t, a)
    ensures Inv(Next(s, t, a))
  {
    hide WellOrdered, Script, MayRun, Dropped;
    assert WellOrdered(t, s(t).held, s(t).rest);
    match a
    case Begin(b) => BlockStarts(t, s(t), b);
    case Step => SteppedOrdered(t, s(t));
    case End =>
  }

  lemma BlockStarts(t: Thread, l: Local, b: Block)
    requires MayRun(t, b) && l.rest == [] && WellOrdered(t, l.held, l.rest)
    ensures WellOrdered(t, l.held, Script(b))
  {
    ScriptsOrdered(t, b);
  }

  lemma SteppedOrdered(t: Thread, l: Local)
    requires l.rest != [] && WellOrdered(t, l.held, l.rest)
    ensures WellOrdered(t, Stepped(l).held, Stepped(l).rest)
    ensures forall k :: k in Stepped(l).held ==> k in l.held || l.rest[0] == Acquire(k)
  {
  }

  lemma {:induction false} RunKeeps(s: State, run: seq<(Thread, Action)>)
    requires Inv(s) && IsRun(s, run)
    ensures Inv(After(s, run))
    decreases |run|
  {
    if run != [] {
      StepKeeps(s, run[0].0, run[0].1);
      RunKeeps(Next(s, run[0].0, run[0].1), run[1..]);
    }
  }

  // ---- Waiting ----

  // One edge of the wait-for graph: u holds the lock t asks for, or has not returned while t joins it.
  predicate WaitsFor(s: State, t: Thread, u: Thread) {
    && s(t).rest != []
    && match s(t).rest[0]
       case Acquire(l) => l in s(u).held
       case Release(_) => false
       case Join(v) => u == v && !s(v).ended
  }

  // Joining threads come first, by level, then those asking for a lock, by rank, then all others.
  function Depth(s: State, t: Thread): nat {
    var rest := s(t).rest;
    if rest == [] then 8
    else
      match rest[0]
      case Join(_) => 3 - Level(t)
      case Acquire(l) => 4 + Rank(l)
      case Release(_) => 8
  }

  // A thread waits only for threads that are strictly deeper.
  lemma WaitsDeeper(s: State, t: Thread, u: Thread)
    requires Inv(s) && WaitsFor(s, t, u)
    ensures Depth(s, t) < Depth(s, u)
  {
    assert WellOrdered(t, s(t).held, s(t).rest);
    assert WellOrdered(u, s(u).held, s(u).rest);
  }

  predicate IsWaitPath(s: State, path: seq<Thread>) {
    forall i :: 0 <= i < |path| - 1 ==> WaitsFor(s, path[i], path[i + 1])
  }

  lemma {:induction false} PathDeepens(s: State, path: seq<Thread>)
    requires Inv(s) && |path| > 1 && IsWaitPath(s, path)
    ensures Depth(s, path[0]) < Depth(s, path[|path| - 1])
  {
    WaitsDeeper(s, path[0], path[1]);
    if |path| > 2 {
      forall i | 0 <= i < |path| - 2 ensures WaitsFor(s, path[1..][i], path[1..][i + 1]) {
        assert WaitsFor(s, path[i + 1], path[i + 2]);
      }
      PathDeepens(s, path[1..]);
    }
  }

  // In every reachable state the wait-for graph of locks and joins has no cycle.
  lemma NoDeadlock(run: seq<(Thread, Action)>, path: seq<Thread>)
    requires IsRun(Init(), run)
    requires |path| > 1 && IsWaitPath(After(Init(), run), path)
    ensures path[0] != path[|path| - 1]
  {
    RunKeeps(Init(), run);
    PathDeepens(After(Init(), run), path);
  }

  // From every waiting thread the graph leads, in at most 8 edges, to a thread that can go on.
  lemma {:induction false} SomeoneGoesOn(s: State, t: Thread) returns (path: seq<Thread>)
    requires Inv(s) && !s(t).ended
    ensures 0 < |path| <= 9 - Depth(s, t) && path[0] == t && IsWaitPath(s, path)
    ensures var last := path[|path| - 1];
            Enabled(s, last, Step) || Enabled(s, last, End)
    decreases 8 - Depth(s, t)
  {
    assert WellOrdered(t, s(t).held, s(t).rest);
    if u :| WaitsFor(s, t, u) {
      WaitsDeeper(s, t, u);
      assert WellOrdered(u, s(u).held, s(u).rest);
      var rest := SomeoneGoesOn(s, u);
      path := [t] + rest;
      forall i | 0 <= i < |path| - 1 ensures WaitsFor(s, path[i], path[i + 1]) {
        if i > 0 {
          assert WaitsFor(s, rest[i - 1], rest[i]);
        }
      }
    } else {
      path := [t];
      if s(t).rest != [] {
        match s(t).rest[0]
        case Acquire(l) =>
          forall v ensures l !in s(v).held {
            assert !WaitsFor(s, t, v);
          }
        case Join(v) => assert !WaitsFor(s, t, v);
        case Release(_) =>
      }
    }
  }

  // The same for every reachable state: what keeps a thread from going on, in the end, is a thread that
  // can act, at most eight edges away in the wait-for graph.
  lemma ReachableGoesOn(run: seq<(Thread, Action)>, t: Thread) returns (u: Thread, path: seq<Thread>)
    requires IsRun(Init(), run) && !After(Init(), run)(t).ended
    ensures 0 < |path| <= 9 && path[0] == t && path[|path| - 1] == u
    ensures IsWaitPath(After(Init(), run), path)
    ensures Enabled(After(Init(), run), u, Step) || Enabled(After(Init(), run), u, End)
  {
    RunKeeps(Init(), run);
    path := SomeoneGoesOn(After(Init(), run), t);
    u := path[|path| - 1];
  }
}
