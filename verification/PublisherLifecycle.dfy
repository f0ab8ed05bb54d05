// A publisher adapter between two threads: the receiving thread starts it, routes messages to it and
// stops it; its own thread pops, processes and releases them.
//
// An action is one critical section or one step outside of the lock. A run is any sequence of enabled
// actions, so every interleaving of the two threads, over any number of sessions, is covered.
module PublisherLifecycle {
  import opened MessageQueue

  // The receiving thread: outside of a session; in one; in StopMonitoring, joining; about to drain.
  datatype Receiver = Stopped | Routing | Joining | Draining

  // The adapter's thread (Monitoring and PopMessage).
  datatype Consumer =
    | Ended
    | AtLoop
    | Popping
    | Waiting
    | Handling(message: Message)
    | Releasing(message: Message)

  // With what happened so far: the messages put into the list, those taken out of it again, those
  // released, those DoMessage has finished in the current session and how many had been taken when the
  // session began, and those refused because the adapter was stopped.
  datatype State = State(
    queue: Queue,
    receiver: Receiver,
    consumer: Consumer,
    arrived: seq<Message>,
    taken: seq<Message>,
    released: seq<Message>,
    processed: seq<Message>,
    begun: nat,
    refused: seq<Message>)

  datatype Action =
    | Start
    | StartFails
    | Route(message: Message)
    | ReceiverStep
    | ConsumerStep
    | WakeSpuriously
    | WaitFails

  function Init(): State {
    State(Queue([], false), Stopped, Ended, [], [], [], [], 0, [])
  }

  predicate Enabled(s: State, a: Action) {
    match a
    case Start => s.receiver.Stopped?
    case StartFails => s.receiver.Stopped?
    case Route(_) => s.receiver.Stopped? || s.receiver.Routing?
    case ReceiverStep => s.receiver.Routing? || s.receiver.Draining? || (s.receiver.Joining? && s.consumer.Ended?)
    case ConsumerStep => !s.consumer.Ended? && !s.consumer.Waiting?
    case WakeSpuriously => s.consumer.Waiting?
    case WaitFails => s.consumer.Waiting?
  }

  function Notified(c: Consumer): Consumer {
    if c.Waiting? then Popping else c
  }

  function Next(s: State, a: Action): State
    requires Enabled(s, a)
  {
    match a
    case Start =>
      s.(queue := s.queue.(ended := false), receiver := Routing, consumer := AtLoop,
         processed := [], begun := |s.taken|)
    case StartFails => s.(queue := s.queue.(ended := false))
    case Route(m) => AfterRoute(s, m)
    case ReceiverStep => AfterReceiver(s)
    case ConsumerStep => AfterConsumer(s)
    case WakeSpuriously => s.(consumer := Popping)
    case WaitFails => s.(consumer := Ended)
  }

  // PushMessage: a stopped adapter takes the message over and forgets it.
  function AfterRoute(s: State, m: Message): State {
    if s.queue.ended then s.(refused := s.refused + [m])
    else s.(queue := Pushed(s.queue, m), arrived := s.arrived + [m], consumer := Notified(s.consumer))
  }

  // StopMonitoring: the flag and the broadcast, then the join, then the drain.
  function AfterReceiver(s: State): State
    requires Enabled(s, ReceiverStep)
  {
    match s.receiver
    case Routing => s.(queue := StopRequested(s.queue), receiver := Joining, consumer := Notified(s.consumer))
    case Joining => s.(receiver := Draining)
    case Draining =>
      s.(queue := Drained(s.queue), receiver := Stopped,
         taken := s.taken + s.queue.messages, released := s.released + s.queue.messages)
  }

  function AfterConsumer(s: State): State
    requires Enabled(s, ConsumerStep)
  {
    match s.consumer
    case AtLoop => s.(consumer := if s.queue.ended then Ended else Popping)
    case Popping =>
      (match LookAt(s.queue)
       case Sleep => s.(consumer := Waiting)
       case Quit => s.(consumer := Ended)
       case Take(m) => s.(queue := Taken(s.queue), consumer := Handling(m), taken := s.taken + [m]))
    case Handling(m) => s.(consumer := Releasing(m), processed := s.processed + [m])
    case Releasing(m) => s.(consumer := AtLoop, released := s.released + [m])
  }

  predicate IsRun(s: State, run: seq<Action>)
    decreases |run|
  {
    run == [] || (Enabled(s, run[0]) && IsRun(Next(s, run[0]), run[1..]))
  }

  function After(s: State, run: seq<Action>): State
    requires IsRun(s, run)
    decreases |run|
  {
    if run == [] then s else After(Next(s, run[0]), run[1..])
  }

  // ---- What every state keeps ----

  function InHand(c: Consumer): seq<Message> {
    match c
    case Handling(m) => [m]
    case Releasing(m) => [m]
    case _ => []
  }

  // Nothing is lost, doubled or reordered: what arrived is what was taken, then what is still queued;
  // what was taken is what was released, then what the consumer has in its hand.
  predicate Conserved(s: State) {
    && s.arrived == s.taken + s.queue.messages
    && s.taken == s.released + InHand(s.consumer)
  }

  // The messages of this session that DoMessage has finished are the first ones that arrived in it.
  predicate InOrder(s: State) {
    && s.begun + |s.processed| <= |s.taken|
    && s.processed == s.taken[s.begun..s.begun + |s.processed|]
    && (s.receiver.Routing? || s.receiver.Joining? ==>
          s.begun + |s.processed| + (if s.consumer.Handling? then 1 else 0) == |s.taken|)
  }

  predicate NoLostWakeup(s: State) {
    s.consumer.Waiting? ==> !s.queue.ended && s.queue.messages == []
  }

  predicate Phases(s: State) {
    && (s.receiver.Routing? ==> !s.queue.ended)
    && (s.receiver.Joining? || s.receiver.Draining? ==> s.queue.ended)
    && (s.receiver.Stopped? || s.receiver.Draining? ==> s.consumer.Ended?)
    && (s.receiver.Stopped? && s.queue.ended ==> s.queue.messages == [])
  }

  predicate Inv(s: State) {
    Conserved(s) && InOrder(s) && NoLostWakeup(s) && Phases(s)
  }

  lemma StepConserves(s: State, a: Action)
    requires Conserved(s) && Phases(s) && Enabled(s, a)
    ensures Conserved(Next(s, a))
  {
    var t := Next(s, a);
    match a
    case Route(m) =>
      assert s.arrived + [m] == s.taken + (s.queue.messages + [m]);
    case ReceiverStep =>
    case ConsumerStep =>
      if s.consumer.Popping? && s.queue.messages != [] {
        assert s.queue.messages == [s.queue.messages[0]] + s.queue.messages[1..];
      }
    case _ =>
  }

  lemma StepInOrder(s: State, a: Action)
    requires Inv(s) && Enabled(s, a)
    ensures InOrder(Next(s, a))
  {
    var from, to := s.begun, s.begun + |s.processed|;
    match a
    case ConsumerStep =>
      if s.consumer.Handling? && to < |s.taken| {
        assert s.taken[from..to + 1] == s.taken[from..to] + [s.taken[to]];
      } else if s.consumer.Popping? && LookAt(s.queue).Take? {
        assert (s.taken + [LookAt(s.queue).message])[from..to] == s.taken[from..to];
      }
    case ReceiverStep =>
      if s.receiver.Draining? {
        assert (s.taken + s.queue.messages)[from..to] == s.taken[from..to];
      }
    case _ =>
  }

  lemma StepPhases(s: State, a: Action)
    requires NoLostWakeup(s) && Phases(s) && Enabled(s, a)
    ensures NoLostWakeup(Next(s, a)) && Phases(Next(s, a))
  {
  }

  lemma {:induction false} RunKeeps(s: State, run: seq<Action>)
    requires Inv(s) && IsRun(s, run)
    ensures Inv(After(s, run))
    decreases |run|
  {
    if run != [] {
      StepConserves(s, run[0]);
      StepInOrder(s, run[0]);
      StepPhases(s, run[0]);
      RunKeeps(Next(s, run[0]), run[1..]);
    }
  }

  // In every reachable state the released messages are the first ones that arrived, in their order. Once
  // the adapter is stopped only the list can hold others, and it holds none unless a restart has failed,
  // which leaves the end flag clear. No message is refused during a session.
  lemma ReleasedOnceWhenStopped(run: seq<Action>)
    requires IsRun(Init(), run)
    ensures var s := After(Init(), run);
            && s.released <= s.taken <= s.arrived
            && (s.receiver.Stopped? ==> s.arrived == s.released + s.queue.messages)
            && (s.receiver.Stopped? && s.queue.ended ==> s.released == s.arrived)
            && (s.receiver.Routing? ==> !s.queue.ended)
  {
    RunKeeps(Init(), run);
  }

  // The messages processed in a session are a prefix of those that arrived in it.
  lemma ProcessedIsPrefix(run: seq<Action>)
    requires IsRun(Init(), run)
    ensures var s := After(Init(), run);
            s.begun <= |s.arrived| && s.processed <= s.arrived[s.begun..]
  {
    RunKeeps(Init(), run);
    var s := After(Init(), run);
    assert s.arrived[s.begun..][..|s.processed|] == s.taken[s.begun..s.begun + |s.processed|];
  }

  // ---- Which messages are released ----

  // The message that arrived at this place of the order has been released.
  predicate ReleasedAt(s: State, at: nat, m: Message) {
    at < |s.released| && s.released[at] == m
  }

  // A message of a session stays in the arrival order until it is released, which the drain at the
  // latest does.
  predicate OnItsWay(s: State, at: nat, m: Message) {
    && at < |s.arrived| && s.arrived[at] == m
    && (s.receiver.Stopped? ==> at < |s.released|)
  }

  lemma StepOnItsWay(s: State, at: nat, m: Message, a: Action)
    requires Inv(s) && OnItsWay(s, at, m) && Enabled(s, a)
    ensures OnItsWay(Next(s, a), at, m)
  {
    StepConserves(s, a);
  }

  lemma {:induction false} StaysOnItsWay(s: State, at: nat, m: Message, run: seq<Action>)
    requires Inv(s) && OnItsWay(s, at, m) && IsRun(s, run)
    ensures OnItsWay(After(s, run), at, m) && Inv(After(s, run))
    decreases |run|
  {
    if run != [] {
      StepOnItsWay(s, at, m, run[0]);
      StepConserves(s, run[0]);
      StepInOrder(s, run[0]);
      StepPhases(s, run[0]);
      StaysOnItsWay(Next(s, run[0]), at, m, run[1..]);
    }
  }

  // Without a session nothing is released.
  lemma {:induction false} StoppedReleasesNothing(s: State, run: seq<Action>)
    requires Inv(s) && s.receiver.Stopped? && IsRun(s, run) && Start !in run
    ensures After(s, run).receiver.Stopped? && After(s, run).released == s.released
    decreases |run|
  {
    if run != [] {
      StepConserves(s, run[0]);
      StepInOrder(s, run[0]);
      StepPhases(s, run[0]);
      StoppedReleasesNothing(Next(s, run[0]), run[1..]);
    }
  }

  // A message routed in a session is released in every continuation that ends stopped; one routed
  // outside of a session in none that does without a new session.
  lemma RoutedIsReleased(before: seq<Action>, m: Message, after: seq<Action>)
    requires IsRun(Init(), before) && Enabled(After(Init(), before), Route(m))
    requires IsRun(Next(After(Init(), before), Route(m)), after)
    ensures var s := After(Init(), before);
            var t := After(Next(s, Route(m)), after);
            && (s.receiver.Routing? && t.receiver.Stopped? ==> ReleasedAt(t, |s.arrived|, m))
            && (!s.receiver.Routing? && Start !in after ==> !ReleasedAt(t, |s.arrived|, m))
  {
    RunKeeps(Init(), before);
    var s := After(Init(), before);
    var next := Next(s, Route(m));
    StepConserves(s, Route(m));
    StepInOrder(s, Route(m));
    StepPhases(s, Route(m));
    if s.receiver.Routing? {
      StaysOnItsWay(next, |s.arrived|, m, after);
    } else if Start !in after {
      StoppedReleasesNothing(next, after);
    }
  }

  // So a routed message is released however the threads go on, unless a new session begins, exactly if it
  // is routed in a session.
  lemma ReleasedExactly(before: seq<Action>, m: Message)
    requires IsRun(Init(), before) && Enabled(After(Init(), before), Route(m))
    ensures var s := After(Init(), before);
            (forall after ::
               IsRun(Next(s, Route(m)), after) && Start !in after && After(Next(s, Route(m)), after).receiver.Stopped? ==>
                 ReleasedAt(After(Next(s, Route(m)), after), |s.arrived|, m))
            <==> s.receiver.Routing?
  {
    var s := After(Init(), before);
    var next := Next(s, Route(m));
    forall after | IsRun(next, after) && Start !in after && After(next, after).receiver.Stopped?
      ensures s.receiver.Routing? ==> ReleasedAt(After(next, after), |s.arrived|, m)
    {
      RoutedIsReleased(before, m, after);
    }
    if !s.receiver.Routing? {
      RoutedIsReleased(before, m, []);
      assert After(next, []) == next;
    }
  }

  // A routed message enters the arrival order or is refused, which happens exactly to a stopped adapter
  // with its end flag set.
  lemma RefusedWhenStopped(s: State, m: Message)
    requires Inv(s) && Enabled(s, Route(m))
    ensures var t := Next(s, Route(m));
            && (t.refused == s.refused + [m] <==> s.receiver.Stopped? && s.queue.ended)
            && (t.arrived == s.arrived + [m] <==> !(s.receiver.Stopped? && s.queue.ended))
  {
    assert |s.arrived + [m]| != |s.arrived| && |s.refused + [m]| != |s.refused|;
  }

  lemma {:induction false} AbsentStaysAbsent(s: State, m: Message, run: seq<Action>)
    requires Inv(s) && m !in s.arrived && IsRun(s, run) && Route(m) !in run
    ensures m !in After(s, run).arrived && Inv(After(s, run))
    decreases |run|
  {
    if run != [] {
      StepConserves(s, run[0]);
      StepInOrder(s, run[0]);
      StepPhases(s, run[0]);
      AbsentStaysAbsent(Next(s, run[0]), m, run[1..]);
    }
  }

  // A message that is refused is not released by any continuation, not even by a later session.
  lemma RefusedIsNeverReleased(before: seq<Action>, m: Message, after: seq<Action>)
    requires IsRun(Init(), before) && After(Init(), before).receiver.Stopped? && After(Init(), before).queue.ended
    requires m !in After(Init(), before).arrived && Route(m) !in after
    requires IsRun(Next(After(Init(), before), Route(m)), after)
    ensures m !in After(Next(After(Init(), before), Route(m)), after).released
  {
    RunKeeps(Init(), before);
    var s := After(Init(), before);
    StepConserves(s, Route(m));
    StepInOrder(s, Route(m));
    StepPhases(s, Route(m));
    AbsentStaysAbsent(Next(s, Route(m)), m, after);
  }

  // A session, its stop, a restart whose thread cannot be created, and a message.
  // A message routed before the first start goes into the list.
  lemma ListsBeforeStart(m: Message)
    ensures Enabled(Init(), Route(m))
    ensures var s := Next(Init(), Route(m)); s.queue.messages == s.arrived == [m] && s.refused == []
  {
  }

  // A failed wait ends the adapter's thread: until the next start no further message is processed, though
  // all of them are released by the stop.
  lemma FailedWaitEnds(s: State, run: seq<Action>)
    requires Enabled(s, WaitFails) && IsRun(Next(s, WaitFails), run) && Start !in run
    ensures After(Next(s, WaitFails), run).processed == s.processed
  {
    EndedStays(Next(s, WaitFails), run);
  }

  lemma {:induction false} EndedStays(s: State, run: seq<Action>)
    requires s.consumer.Ended? && IsRun(s, run) && Start !in run
    ensures After(s, run).consumer.Ended? && After(s, run).processed == s.processed
    decreases |run|
  {
    if run != [] {
      assert run[0] != Start;
      EndedStays(Next(s, run[0]), run[1..]);
    }
  }

  function FailedRestart(m: Message): seq<Action> {
    [Start, ReceiverStep, ConsumerStep, ReceiverStep, ReceiverStep, StartFails, Route(m)]
  }

  // A stopped adapter after a session without messages.
  const SESSION_OVER := State(Queue([], true), Stopped, Ended, [], [], [], [], 0, [])

  lemma EmptySession()
    ensures Enabled(Init(), Start)
    ensures var s1 := Next(Init(), Start);
      && Enabled(s1, ReceiverStep)
      && var s2 := Next(s1, ReceiverStep);
      && Enabled(s2, ConsumerStep)
      && var s3 := Next(s2, ConsumerStep);
      && Enabled(s3, ReceiverStep)
      && var s4 := Next(s3, ReceiverStep);
      && Enabled(s4, ReceiverStep)
      && Next(s4, ReceiverStep) == SESSION_OVER
  {
  }

  lemma RestartFails(m: Message)
    ensures Enabled(SESSION_OVER, StartFails)
    ensures var s := Next(SESSION_OVER, StartFails);
      && Enabled(s, Route(m))
      && var t := Next(s, Route(m));
      && t.receiver.Stopped? && t.queue.messages == [m] && t.refused == [] && t.released == []
      && !Enabled(t, ReceiverStep) && !Enabled(t, ConsumerStep)
  {
  }

  // After a failed restart a message goes into the list of a stopped adapter: it is neither refused nor
  // released, and no thread is left that would ever take it out.
  lemma LeftAfterFailedRestart(m: Message)
    ensures IsRun(Init(), FailedRestart(m))
    ensures var s := After(Init(), FailedRestart(m));
            && s.receiver.Stopped? && s.queue.messages == [m] && s.refused == [] && s.released == []
            && !Enabled(s, ReceiverStep) && !Enabled(s, ConsumerStep)
  {
    hide IsRun, After, Enabled, Next, Init;
    EmptySession();
    RestartFails(m);
    var s1 := Next(Init(), Start);
    var s2 := Next(s1, ReceiverStep);
    var s3 := Next(s2, ConsumerStep);
    var s4 := Next(s3, ReceiverStep);
    var s6 := Next(SESSION_OVER, StartFails);
    var r6 := [Route(m)];
    var r5 := [StartFails] + r6;
    var r4 := [ReceiverStep] + r5;
    var r3 := [ReceiverStep] + r4;
    var r2 := [ConsumerStep] + r3;
    var r1 := [ReceiverStep] + r2;
    assert FailedRestart(m) == [Start] + r1;
    RunNothing(Next(s6, Route(m)));
    RunFirst(s6, r6, []);
    RunFirst(SESSION_OVER, r5, r6);
    RunFirst(s4, r4, r5);
    RunFirst(s3, r3, r4);
    RunFirst(s2, r2, r3);
    RunFirst(s1, r1, r2);
    RunFirst(Init(), [Start] + r1, r1);
  }

  lemma RunNothing(s: State)
    ensures IsRun(s, []) && After(s, []) == s
  {
  }

  lemma RunFirst(s: State, run: seq<Action>, rest: seq<Action>)
    requires run != [] && run[1..] == rest && Enabled(s, run[0]) && IsRun(Next(s, run[0]), rest)
    ensures IsRun(s, run) && After(s, run) == After(Next(s, run[0]), rest)
  {
  }

  // ---- Stopping ----

  function Work(s: State): nat {
    (match s.consumer
     case Ended => 0
     case Popping => 1
     case AtLoop => 2
     case Releasing(_) => 3
     case Handling(_) => 4
     case Waiting => 5)
    + (if s.receiver.Joining? then 2 else if s.receiver.Draining? then 1 else 0)
  }

  predicate Stopping(s: State) {
    s.receiver.Joining? || s.receiver.Draining?
  }

  // Once a stop was requested one of the two threads can always act by itself, without a spurious wakeup
  // or a failing wait, and every action brings the end nearer; so StopMonitoring returns after a bounded
  // number of actions, whatever the interleaving.
  lemma StopProgresses(s: State, a: Action)
    requires Inv(s) && (s.receiver.Joining? || s.receiver.Draining?)
    ensures Enabled(s, ReceiverStep) || Enabled(s, ConsumerStep)
    ensures Enabled(s, a) ==> Work(Next(s, a)) < Work(s)
    ensures Enabled(s, a) ==> Stopping(Next(s, a)) || Next(s, a).receiver.Stopped?
  {
  }

  // A run that takes place between the request to stop and the return of StopMonitoring.
  predicate IsStoppingRun(s: State, run: seq<Action>)
    decreases |run|
  {
    run == [] || (Stopping(s) && Enabled(s, run[0]) && IsStoppingRun(Next(s, run[0]), run[1..]))
  }

  lemma {:induction false} StopIsBounded(s: State, run: seq<Action>)
    requires Inv(s) && IsStoppingRun(s, run)
    ensures |run| <= Work(s)
    decreases |run|
  {
    if run != [] {
      StopProgresses(s, run[0]);
      StepConserves(s, run[0]);
      StepInOrder(s, run[0]);
      StepPhases(s, run[0]);
      StopIsBounded(Next(s, run[0]), run[1..]);
    }
  }
}
