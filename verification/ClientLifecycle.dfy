// The life of the clients of a started manager: the listener accepts them, their own threads end and
// release them, the reaper thread (Monitor) and the thread in Stop join and delete them.
//
// A state is what all these threads share together with the point each has reached; an action is one
// critical section or one step outside of the lock. A run is any sequence of enabled actions, so
// every interleaving is covered.
module ClientLifecycle {
  import opened ClientLists

  // Stopping a client and deleting it: about to set the client's own end_flag_; joining its thread;
  // about to delete it.
  datatype Stage = Asking | Joining | Joined

  // Monitor: about to lock and test end_flag_; inside the wait; out of it but not yet holding the
  // lock; releasing a batch, whose first client is being stopped; returned.
  datatype Reaper =
    | Looking
    | Waiting
    | Woken
    | Reaping(batch: seq<Client>, stage: Stage)
    | Finished

  // Stop: not called yet; waiting for the reaper to end; at the loop test of ReleaseAllClients;
  // stopping one client of clients_; stopping those of release_list_; returned.
  datatype Stopper =
    | NotCalled
    | AwaitingReaper
    | Draining
    | StoppingOne(client: Client, stage: Stage)
    | StoppingRest(batch: seq<Client>, stage: Stage)
    | Returned

  // The receiving threads by what they still have to do: `running` ones are in the receive loop,
  // `leaving` ones are about to call Release, `exiting` ones have called it, `gone` ones have ended. The
  // clients whose end_flag_ was set are `asked`.
  datatype State = State(
    lists: Lists,
    running: set<Client>,
    leaving: set<Client>,
    exiting: set<Client>,
    gone: set<Client>,
    asked: set<Client>,
    reaper: Reaper,
    stopper: Stopper,
    deleted: seq<Client>)
  {
    function Accepted(): set<Client> {
      running + leaving + exiting + gone
    }
  }

  datatype Action =
    | Accept(client: Client)
    | LeaveLoop(client: Client)
    | CallRelease(client: Client)
    | EndThread(client: Client)
    | WakeSpuriously
    | ReaperStep
    | CallStop
    | StopperStep

  function Init(): State {
    State(Lists([], [], false), {}, {}, {}, {}, {}, Looking, NotCalled, [])
  }

  // Register and the successful start of the client's thread are one action, before Stop is called.
  predicate Enabled(s: State, a: Action) {
    match a
    case Accept(c) => c !in s.Accepted() && !s.lists.ended
    case LeaveLoop(c) => c in s.running
    case CallRelease(c) => c in s.leaving
    case EndThread(c) => c in s.exiting
    case WakeSpuriously => s.reaper.Waiting?
    case ReaperStep => ReaperCanStep(s)
    case CallStop => s.stopper.NotCalled?
    case StopperStep => StopperCanStep(s)
  }

  // A join waits for the thread to have ended, a condition wait for a signal; nothing else blocks.
  predicate ReaperCanStep(s: State) {
    match s.reaper
    case Looking => true
    case Waiting => false
    case Woken => true
    case Reaping(batch, stage) => batch == [] || !stage.Joining? || batch[0] in s.gone
    case Finished => false
  }

  predicate StopperCanStep(s: State) {
    match s.stopper
    case NotCalled => false
    case AwaitingReaper => s.reaper.Finished?
    case Draining => true
    case StoppingOne(c, stage) => !stage.Joining? || c in s.gone
    case StoppingRest(batch, stage) => batch == [] || !stage.Joining? || batch[0] in s.gone
    case Returned => false
  }

  function Signalled(r: Reaper): Reaper {
    if r.Waiting? then Woken else r
  }

  function Next(s: State, a: Action): State
    requires Enabled(s, a)
  {
    match a
    case Accept(c) => s.(lists := Registered(s.lists, c), running := s.running + {c})
    case LeaveLoop(c) => s.(running := s.running - {c}, leaving := s.leaving + {c})
    case CallRelease(c) =>
      s.(lists := Released(s.lists, c), leaving := s.leaving - {c}, exiting := s.exiting + {c},
         reaper := if c in s.lists.clients then Signalled(s.reaper) else s.reaper)
    case EndThread(c) => s.(exiting := s.exiting - {c}, gone := s.gone + {c})
    case WakeSpuriously => s.(reaper := Woken)
    case ReaperStep => AfterReaper(s)
    case CallStop => s.(lists := Ended(s.lists), reaper := Signalled(s.reaper), stopper := AwaitingReaper)
    case StopperStep => AfterStopper(s)
  }

  function AfterReaper(s: State): State
    requires ReaperCanStep(s)
  {
    match s.reaper
    case Looking => if s.lists.ended then s.(reaper := Finished) else AfterTest(s)
    case Woken => AfterTest(s)
    case Reaping(batch, stage) =>
      if batch == [] then s.(reaper := Looking)
      else
        (match stage
         case Asking => s.(asked := s.asked + {batch[0]}, reaper := Reaping(batch, Joining))
         case Joining => s.(reaper := Reaping(batch, Joined))
         case Joined => s.(reaper := Reaping(batch[1..], Asking), deleted := s.deleted + [batch[0]]))
  }

  // The test of the inner loop of Monitor, under the lock.
  function AfterTest(s: State): State {
    if !s.lists.ended && s.lists.released == [] then s.(reaper := Waiting)
    else s.(lists := BatchTaken(s.lists), reaper := Reaping(s.lists.released, Asking))
  }

  function AfterStopper(s: State): State
    requires StopperCanStep(s)
  {
    match s.stopper
    case AwaitingReaper => s.(stopper := Draining)
    case Draining =>
      if s.lists.clients != [] then
        s.(lists := LastTaken(s.lists), stopper := StoppingOne(s.lists.clients[|s.lists.clients| - 1], Asking))
      else
        s.(lists := BatchTaken(s.lists), stopper := StoppingRest(s.lists.released, Asking))
    case StoppingOne(c, stage) =>
      (match stage
       case Asking => s.(asked := s.asked + {c}, stopper := StoppingOne(c, Joining))
       case Joining => s.(stopper := StoppingOne(c, Joined))
       case Joined => s.(stopper := Draining, deleted := s.deleted + [c]))
    case StoppingRest(batch, stage) =>
      if batch == [] then s.(stopper := Returned)
      else
        (match stage
         case Asking => s.(asked := s.asked + {batch[0]}, stopper := StoppingRest(batch, Joining))
         case Joining => s.(stopper := StoppingRest(batch, Joined))
         case Joined => s.(stopper := StoppingRest(batch[1..], Asking), deleted := s.deleted + [batch[0]]))
  }

  predicate IsRun(s: State, run: seq<Action>)
    decreases |run|
  {
    run == [] || (Enabled(s, run[0]) && IsRun(Next(s, run[0]), run[1..]))
  }

  function After(s: State, run: seq<Action>): State
    requires IsRun(s, run)
    decreases |run|
  {
    if run == [] then s else After(Next(s, run[0]), run[1..])
  }

  // ---- Ownership ----

  function ReaperHolds(s: State): seq<Client> {
    if s.reaper.Reaping? then s.reaper.batch else []
  }

  function StopperHolds(s: State): seq<Client> {
    match s.stopper
    case StoppingOne(c, _) => [c]
    case StoppingRest(batch, _) => batch
    case _ => []
  }

  // How often a client occurs in the five places it can be in.
  function Places(s: State, c: Client): nat {
    Count(s.lists.clients, c) + Count(s.lists.released, c) + Count(ReaperHolds(s), c)
    + Count(StopperHolds(s), c) + Count(s.deleted, c)
  }

  predicate ThreadsPartition(s: State) {
    && s.running !! s.leaving && s.running !! s.exiting && s.running !! s.gone
    && s.leaving !! s.exiting && s.leaving !! s.gone && s.exiting !! s.gone
  }

  // Each accepted client is in exactly one place, once.
  ghost predicate OwnedOnce(s: State) {
    forall c :: Places(s, c) == if c in s.Accepted() then 1 else 0
  }

  predicate JoinedFirst(s: State) {
    && (forall c :: c in s.deleted ==> c in s.gone)
    && (s.reaper.Reaping? && s.reaper.stage.Joined? ==> s.reaper.batch != [] && s.reaper.batch[0] in s.gone)
    && (s.stopper.StoppingOne? && s.stopper.stage.Joined? ==> s.stopper.client in s.gone)
    && (s.stopper.StoppingRest? && s.stopper.stage.Joined? ==> s.stopper.batch != [] && s.stopper.batch[0] in s.gone)
  }

  // No thread is joined whose client was not told to end before, and every client that was released has
  // called Release itself, so that only the end of its thread is missing.
  predicate AskedFirst(s: State) {
    && (s.reaper.Reaping? && !s.reaper.stage.Asking? ==> s.reaper.batch != [] && s.reaper.batch[0] in s.asked)
    && (s.stopper.StoppingOne? && !s.stopper.stage.Asking? ==> s.stopper.client in s.asked)
    && (s.stopper.StoppingRest? && !s.stopper.stage.Asking? ==> s.stopper.batch != [] && s.stopper.batch[0] in s.asked)
  }

  predicate ReleasedCalled(s: State) {
    && (forall c :: c in s.lists.released ==> c in s.exiting + s.gone)
    && (s.reaper.Reaping? ==> forall c :: c in s.reaper.batch ==> c in s.exiting + s.gone)
    && (s.stopper.StoppingRest? ==> forall c :: c in s.stopper.batch ==> c in s.exiting + s.gone)
  }

  // The reaper never sleeps on work: a signal was sent for everything that ends its wait.
  predicate NoLostWakeup(s: State) {
    s.reaper.Waiting? ==> !s.lists.ended && s.lists.released == []
  }

  predicate StopOrder(s: State) {
    && (s.lists.ended <==> !s.stopper.NotCalled?)
    && (s.stopper.Draining? || s.stopper.StoppingOne? || s.stopper.StoppingRest? || s.stopper.Returned?
        ==> s.reaper.Finished?)
    && (s.reaper.Finished? ==> s.lists.ended)
    && (s.stopper.StoppingRest? || s.stopper.Returned? ==> s.lists.clients == [] && s.lists.released == [])
  }

  ghost predicate Inv(s: State) {
    && ThreadsPartition(s) && OwnedOnce(s) && JoinedFirst(s) && AskedFirst(s) && ReleasedCalled(s)
    && NoLostWakeup(s) && StopOrder(s)
  }

  lemma ClientStepOwned(s: State, a: Action, x: Client)
    requires OwnedOnce(s) && ThreadsPartition(s) && Enabled(s, a)
    requires a.Accept? || a.LeaveLoop? || a.CallRelease? || a.EndThread?
    ensures Places(Next(s, a), x) == if x in Next(s, a).Accepted() then 1 else 0
  {
    hide Remove, Count;
    assert Places(s, x) == if x in s.Accepted() then 1 else 0;
    var c := a.client;
    if a.Accept? {
      CountAdded(s.lists.clients, c, x);
    }
    if a.CallRelease? {
      CountRemoved(s.lists.clients, c, x);
      CountAdded(s.lists.released, c, x);
    }
  }

  lemma ReaperStepOwned(s: State, x: Client)
    requires ReaperCanStep(s)
    ensures Places(AfterReaper(s), x) == Places(s, x) && AfterReaper(s).Accepted() == s.Accepted()
  {
    hide Count;
    CountEmpty(x);
    if s.reaper.Reaping? && s.reaper.batch != [] {
      CountFirst(s.reaper.batch, x);
      CountAdded(s.deleted, s.reaper.batch[0], x);
    }
  }

  lemma StopperStepOwned(s: State, x: Client)
    requires StopperCanStep(s)
    ensures Places(AfterStopper(s), x) == Places(s, x) && AfterStopper(s).Accepted() == s.Accepted()
  {
    hide Count;
    CountEmpty(x);
    match s.stopper
    case Draining =>
      if s.lists.clients != [] {
        CountLast(s.lists.clients, x);
        CountOne(s.lists.clients[|s.lists.clients| - 1], x);
      }
    case StoppingOne(c, _) =>
      CountOne(c, x);
      CountAdded(s.deleted, c, x);
    case StoppingRest(batch, _) =>
      if batch != [] {
        CountFirst(batch, x);
        CountAdded(s.deleted, batch[0], x);
      }
    case _ =>
  }

  lemma SignalOwned(s: State, a: Action, x: Client)
    requires Enabled(s, a) && (a.WakeSpuriously? || a.CallStop?)
    ensures Places(Next(s, a), x) == Places(s, x) && Next(s, a).Accepted() == s.Accepted()
  {
  }

  lemma StepOwned(s: State, a: Action)
    requires OwnedOnce(s) && ThreadsPartition(s) && Enabled(s, a)
    ensures OwnedOnce(Next(s, a))
  {
    hide Remove, Count, Places, AfterReaper, AfterStopper;
    forall x
      ensures Places(Next(s, a), x) == if x in Next(s, a).Accepted() then 1 else 0
    {
      assert Places(s, x) == if x in s.Accepted() then 1 else 0;
      match a
      case ReaperStep => ReaperStepOwned(s, x);
      case StopperStep => StopperStepOwned(s, x);
      case WakeSpuriously => SignalOwned(s, a, x);
      case CallStop => SignalOwned(s, a, x);
      case _ => ClientStepOwned(s, a, x);
    }
  }

  lemma StepJoined(s: State, a: Action)
    requires JoinedFirst(s) && Enabled(s, a) && StopOrder(s)
    ensures JoinedFirst(Next(s, a))
  {
    hide Remove;
  }

  lemma StepAsked(s: State, a: Action)
    requires AskedFirst(s) && Enabled(s, a)
    ensures AskedFirst(Next(s, a))
  {
    hide Remove;
  }

  lemma StepCalled(s: State, a: Action)
    requires ReleasedCalled(s) && Enabled(s, a)
    ensures ReleasedCalled(Next(s, a))
  {
    hide Remove;
  }

  lemma StepOrdered(s: State, a: Action)
    requires NoLostWakeup(s) && StopOrder(s) && Enabled(s, a)
    ensures NoLostWakeup(Next(s, a)) && StopOrder(Next(s, a))
  {
    hide Remove;
  }

  lemma StepKeeps(s: State, a: Action)
    requires Inv(s) && Enabled(s, a)
    ensures Inv(Next(s, a))
  {
    hide Enabled, Next, OwnedOnce, ThreadsPartition, JoinedFirst, AskedFirst, ReleasedCalled, NoLostWakeup, StopOrder;
    StepOwned(s, a);
    StepJoined(s, a);
    StepAsked(s, a);
    StepCalled(s, a);
    StepOrdered(s, a);
    StepPartition(s, a);
  }

  lemma InitInv()
    ensures Inv(Init())
  {
  }

  lemma StepPartition(s: State, a: Action)
    requires ThreadsPartition(s) && Enabled(s, a)
    ensures ThreadsPartition(Next(s, a))
  {
    hide Remove;
  }

  // What holds in every state of every run: one owner, deletion after the join, no lost wakeup, and
  // the order of events in Stop.
  lemma {:induction false} RunKeeps(s: State, run: seq<Action>)
    requires Inv(s) && IsRun(s, run)
    ensures Inv(After(s, run))
    decreases |run|
  {
    if run != [] {
      StepKeeps(s, run[0]);
      RunKeeps(Next(s, run[0]), run[1..]);
    }
  }

  // Every accepted client was deleted, once, and nothing else was.
  ghost predicate DeletedOnce(s: State) {
    forall c :: Count(s.deleted, c) == if c in s.Accepted() then 1 else 0
  }

  // In every reachable state an accepted client is in exactly one of the five places.
  lemma OneOwner(run: seq<Action>, c: Client)
    requires IsRun(Init(), run)
    ensures var s := After(Init(), run);
            && Places(s, c) == (if c in s.Accepted() then 1 else 0)
            && Count(s.deleted, c) <= 1
            && (c in s.deleted ==> c in s.gone)
  {
    RunKeeps(Init(), run);
  }

  lemma ReturnedDeletedAll(s: State)
    requires Inv(s) && s.stopper.Returned?
    ensures DeletedOnce(s) && s.Accepted() == s.gone
  {
    forall c ensures Count(s.deleted, c) == if c in s.Accepted() then 1 else 0 {
      assert Places(s, c) == Count(s.deleted, c);
    }
    forall c | c in s.Accepted() ensures c in s.gone {
      CountPositive(s.deleted, c);
    }
  }

  // When Stop has returned, both lists are empty, no thread of a client is left, and every client
  // that was ever accepted has been deleted exactly once.
  lemma StopDeletesAll(run: seq<Action>)
    requires IsRun(Init(), run) && After(Init(), run).stopper.Returned?
    ensures var s := After(Init(), run);
            && s.lists.clients == [] && s.lists.released == []
            && DeletedOnce(s)
            && s.Accepted() == s.gone
  {
    RunKeeps(Init(), run);
    ReturnedDeletedAll(After(Init(), run));
  }

  // ---- Progress ----

  function StageWork(stage: Stage): nat {
    match stage
    case Asking => 2
    case Joining => 1
    case Joined => 0
  }

  function ReaperWork(r: Reaper): nat {
    match r
    case Waiting => 6
    case Woken => 5
    case Reaping(batch, stage) => 2 + 3 * |batch| + StageWork(stage)
    case Looking => 1
    case Finished => 0
  }

  function StopperWork(st: Stopper): nat {
    match st
    case NotCalled => 6
    case AwaitingReaper => 5
    case Draining => 4
    case StoppingOne(_, stage) => 5 + StageWork(stage)
    case StoppingRest(batch, stage) => 1 + 3 * |batch| + StageWork(stage)
    case Returned => 0
  }

  // A bound on the number of actions still possible once Stop has been called.
  function Work(s: State): nat {
    3 * |s.running| + 2 * |s.leaving| + |s.exiting|
    + 4 * |s.lists.clients| + 3 * |s.lists.released| + ReaperWork(s.reaper) + StopperWork(s.stopper)
  }

  lemma ClientStepDecreases(s: State, a: Action)
    requires ThreadsPartition(s) && s.lists.ended && Enabled(s, a)
    requires a.LeaveLoop? || a.CallRelease? || a.EndThread?
    ensures 3 * |Next(s, a).running| + 2 * |Next(s, a).leaving| + |Next(s, a).exiting|
         == 3 * |s.running| + 2 * |s.leaving| + |s.exiting| - 1
    ensures 4 * |Next(s, a).lists.clients| + 3 * |Next(s, a).lists.released|
         <= 4 * |s.lists.clients| + 3 * |s.lists.released|
  {
    hide Remove;
    if a.CallRelease? {
      RemoveLength(s.lists.clients, a.client);
    }
  }

  lemma ReaperStepDecreases(s: State)
    requires NoLostWakeup(s) && s.lists.ended && ReaperCanStep(s)
    ensures ReaperWork(AfterReaper(s).reaper) + 3 * |AfterReaper(s).lists.released|
          < ReaperWork(s.reaper) + 3 * |s.lists.released|
  {
  }

  lemma StopperStepDecreases(s: State)
    requires StopperCanStep(s)
    ensures var t := AfterStopper(s);
            StopperWork(t.stopper) + 4 * |t.lists.clients| + 3 * |t.lists.released|
            < StopperWork(s.stopper) + 4 * |s.lists.clients| + 3 * |s.lists.released|
  {
  }

  lemma StepDecreases(s: State, a: Action)
    requires Inv(s) && s.lists.ended && Enabled(s, a)
    ensures Next(s, a).lists.ended && Work(Next(s, a)) < Work(s)
  {
    hide Remove, OwnedOnce, JoinedFirst, ReaperWork, StopperWork;
    match a
    case ReaperStep => ReaperStepDecreases(s);
    case StopperStep => StopperStepDecreases(s);
    case LeaveLoop(_) => ClientStepDecreases(s, a);
    case CallRelease(_) => ClientStepDecreases(s, a);
    case EndThread(_) => ClientStepDecreases(s, a);
    case _ =>
  }

  // After Stop was called no interleaving goes on for ever: the loop of ReleaseAllClients ends, since
  // nothing adds to clients_ any more.
  lemma {:induction false} RunsAreBounded(s: State, run: seq<Action>)
    requires Inv(s) && s.lists.ended && IsRun(s, run)
    ensures |run| <= Work(s)
    decreases |run|
  {
    if run != [] {
      StepKeeps(s, run[0]);
      StepDecreases(s, run[0]);
      RunsAreBounded(Next(s, run[0]), run[1..]);
    }
  }

  // What a thread of the server does by itself. A connected client goes on receiving for as long as its
  // peer likes, unless its end_flag_ is set; new connections, the call of Stop and spurious wakeups come
  // from outside.
  predicate Unaided(s: State, a: Action) {
    match a
    case Accept(_) => false
    case LeaveLoop(c) => c in s.asked
    case WakeSpuriously => false
    case CallStop => false
    case _ => true
  }

  lemma UnaidedExactly(s: State, a: Action)
    ensures !Unaided(s, a) <==>
              || a.Accept? || a.CallStop? || a.WakeSpuriously? || (a.LeaveLoop? && a.client !in s.asked)
  {
  }

  predicate IsJoined(s: State, c: Client) {
    || (s.reaper.Reaping? && s.reaper.stage.Joining? && s.reaper.batch != [] && s.reaper.batch[0] == c)
    || (s.stopper.StoppingOne? && s.stopper.stage.Joining? && s.stopper.client == c)
    || (s.stopper.StoppingRest? && s.stopper.stage.Joining? && s.stopper.batch != [] && s.stopper.batch[0] == c)
  }

  // A client that is being joined has its end_flag_ set and is still owned by the thread that joins it,
  // so its own thread can go on, whatever its peer does; one that was released has only to end.
  lemma HeldCanEnd(s: State, c: Client)
    requires Inv(s) && c !in s.gone && IsJoined(s, c)
    ensures c in s.asked && c in s.running + s.leaving + s.exiting
    ensures !s.stopper.StoppingOne? ==> c in s.exiting
    ensures exists a: Action :: (a == LeaveLoop(c) || a == CallRelease(c) || a == EndThread(c)) && Unaided(s, a) && Enabled(s, a)
  {
    CountPositive(ReaperHolds(s), c);
    CountPositive(StopperHolds(s), c);
    assert Places(s, c) >= 1;
    var a := if c in s.running then LeaveLoop(c) else if c in s.leaving then CallRelease(c) else EndThread(c);
    assert Unaided(s, a) && Enabled(s, a);
  }

  // And it never gets stuck: until Stop returns, some thread can go on by itself, even if no connected
  // client ever leaves without being told.
  lemma NeverStuck(s: State)
    requires Inv(s) && s.lists.ended && !s.stopper.Returned?
    ensures exists a: Action :: Unaided(s, a) && Enabled(s, a)
  {
    hide Remove, OwnedOnce;
    if s.reaper.Reaping? && !ReaperCanStep(s) {
      HeldCanEnd(s, s.reaper.batch[0]);
    } else if !s.reaper.Finished? {
      assert Unaided(s, ReaperStep) && Enabled(s, ReaperStep);
    } else if StopperCanStep(s) {
      assert Unaided(s, StopperStep) && Enabled(s, StopperStep);
    } else {
      HeldCanEnd(s, if s.stopper.StoppingOne? then s.stopper.client else s.stopper.batch[0]);
    }
  }

  // So a run that no thread can continue by itself after Stop was called, with however many clients still
  // connected, is one where Stop has returned, with every accepted client deleted.
  lemma StopReturns(before: seq<Action>, run: seq<Action>)
    requires IsRun(Init(), before) && After(Init(), before).lists.ended
    requires IsRun(After(Init(), before), run)
    ensures |run| <= Work(After(Init(), before))
    ensures var s := After(After(Init(), before), run);
            (forall a: Action :: Unaided(s, a) ==> !Enabled(s, a)) ==> s.stopper.Returned? && DeletedOnce(s)
  {
    hide Enabled, Unaided, Next, Inv, Work, IsRun, After, DeletedOnce;
    InitInv();
    RunKeeps(Init(), before);
    var s := After(Init(), before);
    RunsAreBounded(s, run);
    RunKeeps(s, run);
    StaysEnded(s, run);
    var last := After(s, run);
    if !last.stopper.Returned? {
      NeverStuck(last);
    } else {
      ReturnedDeletedAll(last);
    }
  }

  lemma {:induction false} StaysEnded(s: State, run: seq<Action>)
    requires IsRun(s, run) && s.lists.ended
    ensures After(s, run).lists.ended
    decreases |run|
  {
    if run != [] {
      StaysEnded(Next(s, run[0]), run[1..]);
    }
  }

  // While the manager runs, a released client is never forgotten: the reaper can act on the list, or
  // it is joining a client whose own thread has called Release and has only to end.
  lemma ReleasedIsReaped(s: State)
    requires Inv(s) && s.lists.released != [] && !s.lists.ended
    ensures Enabled(s, ReaperStep)
         || (s.reaper.Reaping? && s.reaper.batch != []
             && IsJoined(s, s.reaper.batch[0]) && s.reaper.batch[0] in s.exiting)
  {
    if s.reaper.Reaping? && !ReaperCanStep(s) {
      HeldCanEnd(s, s.reaper.batch[0]);
    }
  }
}
