/**
 The daemon's start-up and shutdown (internal/daemon/daemon.go Run, sweepLoop;
 internal/bus/bus.go) as a protocol between the main goroutine, the sweep loop,
 the subscription's delivery goroutine, the bus server and its clients. Steps
 are functions of their labels, so a run is any sequence of labels; a label that
 is not enabled does nothing.

 Of the bus only this is used: the server routes a message to a subscription it
 has registered and drops it otherwise; messages are delivered one at a time, in
 order; Flush returns once the server has processed the subscription; Drain
 returns without timing out once the server has dropped the subscription and
 every delivered message's handler has returned.
 */
module Lifecycle {
  /** Where the main goroutine is; each phase ends with the call it is named after. */
  datatype Phase =
    | Booting | Connecting | Subscribing | Flushing | WritingToken | Spawning
    | Serving | JoiningSweeper | Draining
    | ClosingBus | StoppingServer | ClosingStore | Done

  datatype Sweeper = NotStarted | WantsSweep | Sweeping | Selecting | Exited

  datatype Handler = Resting | WantsHandle(m: nat) | Handling(m: nat)

  datatype Holder = Nobody | TheHandler | TheSweeper

  datatype Daemon = Daemon(
    phase: Phase,
    drained: bool,             // Drain returned without timing out
    freshStart: bool,               // there was no token file at start
    token: bool,               // the token file can be read
    registered: bool,          // the server routes events to the subscription
    signalled: bool,
    sweeper: Sweeper,
    handler: Handler,
    mutex: Holder,
    queue: seq<nat>,           // delivered to the subscription, not yet taken by its goroutine
    delivered: seq<nat>,       // everything ever delivered
    handled: seq<nat>,         // every message whose handler has returned
    lost: seq<nat>,            // dropped although the publisher had read the token, before shutdown
    touchedClosed: bool)       // someone used the store after it was closed

  datatype Label =
    | StartServer | Connect | Subscribe | ServerRegisters | Flush | WriteToken | Spawn
    | Signal | Wake | Join | ServerUnregisters | DrainReturns | DrainTimesOut | StartupFails
    | CloseBus | StopServer | CloseStore
    | SweepLock | SweepUsesStore | SweepUnlock | Tick | SweepLoopReturns
    | Publish(m: nat, readToken: bool)
    | Take | HandleLock | HandleUsesStore | HandleUnlock

  function Start(freshStart: bool): Daemon {
    Daemon(Booting, false, freshStart, !freshStart, false, false, NotStarted, Resting, Nobody, [], [], [], [], false)
  }

  predicate ServerUp(p: Phase) {
    !(p.Booting? || p.ClosingStore? || p.Done?)
  }

  /** The subscription has been issued and its connection is open. */
  predicate Connected(p: Phase) {
    p.Flushing? || p.WritingToken? || p.Spawning? || p.Serving? || p.JoiningSweeper? || p.Draining? || p.ClosingBus?
  }

  /** Shutdown has not begun: the bus is not being drained or closed. */
  predicate BeforeShutdown(p: Phase) {
    p.Booting? || p.Connecting? || p.Subscribing? || p.Flushing?
    || p.WritingToken? || p.Spawning? || p.Serving? || p.JoiningSweeper?
  }

  function MainStep(s: Daemon, l: Label): Daemon {
    match l
    case StartServer => if s.phase.Booting? then s.(phase := Connecting) else s
    case Connect => if s.phase.Connecting? then s.(phase := Subscribing) else s
    case Subscribe => if s.phase.Subscribing? then s.(phase := Flushing) else s
    case Flush => if s.phase.Flushing? && s.registered then s.(phase := WritingToken) else s
    case WriteToken => if s.phase.WritingToken? then s.(phase := Spawning, token := true) else s
    case Spawn => if s.phase.Spawning? then s.(phase := Serving, sweeper := WantsSweep) else s
    case Wake => if s.phase.Serving? && s.signalled then s.(phase := JoiningSweeper) else s
    case Join => if s.phase.JoiningSweeper? && s.sweeper.Exited? then s.(phase := Draining) else s
    case DrainReturns =>
      if s.phase.Draining? && !s.registered && s.queue == [] && s.handler.Resting?
        then s.(phase := ClosingBus, drained := true) else s
    case DrainTimesOut => if s.phase.Draining? then s.(phase := ClosingBus) else s
    case StartupFails => if s.phase.Flushing? || s.phase.WritingToken? then s.(phase := ClosingBus) else s
    case CloseBus => if s.phase.ClosingBus? then s.(phase := StoppingServer, registered := false) else s
    case StopServer => if s.phase.StoppingServer? then s.(phase := ClosingStore) else s
    case CloseStore => if s.phase.ClosingStore? then s.(phase := Done) else s
    case _ => s
  }

  function BusStep(s: Daemon, l: Label): Daemon {
    match l
    case ServerRegisters => if s.phase.Flushing? then s.(registered := true) else s
    case ServerUnregisters => if s.phase.Draining? then s.(registered := false) else s
    case Signal => s.(signalled := true)
    case Publish(m, readToken) =>
      if !ServerUp(s.phase) || (readToken && !s.token) then s
      else if s.registered then s.(queue := s.queue + [m], delivered := s.delivered + [m])
      else if readToken && BeforeShutdown(s.phase) then s.(lost := s.lost + [m])
      else s
    case _ => s
  }

  function SweeperStep(s: Daemon, l: Label): Daemon {
    match l
    case SweepLock =>
      if s.sweeper.WantsSweep? && s.mutex.Nobody? then s.(sweeper := Sweeping, mutex := TheSweeper) else s
    case SweepUsesStore => if s.sweeper.Sweeping? && s.phase.Done? then s.(touchedClosed := true) else s
    case SweepUnlock => if s.sweeper.Sweeping? then s.(sweeper := Selecting, mutex := Nobody) else s
    case Tick => if s.sweeper.Selecting? then s.(sweeper := WantsSweep) else s
    case SweepLoopReturns => if s.sweeper.Selecting? && s.signalled then s.(sweeper := Exited) else s
    case _ => s
  }

  function HandlerStep(s: Daemon, l: Label): Daemon {
    match l
    case Take =>
      if s.handler.Resting? && s.queue != [] && Connected(s.phase)
        then s.(handler := WantsHandle(s.queue[0]), queue := s.queue[1..]) else s
    case HandleLock =>
      if s.handler.WantsHandle? && s.mutex.Nobody? then s.(handler := Handling(s.handler.m), mutex := TheHandler) else s
    case HandleUsesStore => if s.handler.Handling? && s.phase.Done? then s.(touchedClosed := true) else s
    case HandleUnlock =>
      if s.handler.Handling? then s.(handler := Resting, mutex := Nobody, handled := s.handled + [s.handler.m]) else s
    case _ => s
  }

  function Apply(s: Daemon, l: Label): Daemon {
    HandlerStep(SweeperStep(BusStep(MainStep(s, l), l), l), l)
  }

  function Run(s: Daemon, labels: seq<Label>): Daemon
    decreases |labels|
  {
    if labels == [] then s else Run(Apply(s, labels[0]), labels[1..])
  }

  // ---- what every reachable state satisfies ----

  /** The mutex is held by exactly whoever is in its critical section. */
  predicate MutexIsHeld(s: Daemon) {
    (s.mutex.TheHandler? <==> s.handler.Handling?) && (s.mutex.TheSweeper? <==> s.sweeper.Sweeping?)
  }

  function InFlight(h: Handler): seq<nat> {
    if h.Resting? then [] else [h.m]
  }

  /** No message is lost, duplicated or reordered between delivery and handling. */
  predicate NothingLost(s: Daemon) {
    s.delivered == s.handled + InFlight(s.handler) + s.queue
  }

  /** The sweep loop runs from Spawn until the main goroutine has joined it. */
  predicate SweeperFollowsMain(s: Daemon) {
    && (s.phase.Serving? || s.phase.JoiningSweeper? ==> !s.sweeper.NotStarted?)
    && (s.phase.Draining? ==> s.sweeper.Exited?)
    && (!s.phase.Serving? && !s.phase.JoiningSweeper? ==> s.sweeper.NotStarted? || s.sweeper.Exited?)
  }

  /** Once drained, nothing is left to run and nothing can arrive. */
  predicate DrainIsFinal(s: Daemon) {
    && (s.drained ==>
          && !s.registered && s.queue == [] && s.handler.Resting?
          && (s.phase.ClosingBus? || s.phase.StoppingServer? || s.phase.ClosingStore? || s.phase.Done?))
    && (s.touchedClosed ==> s.phase.Done? && !s.drained)
  }

  /** The token a fresh daemon wrote is a promise: the server routes events until shutdown. */
  predicate TokenMeansReady(s: Daemon) {
    && (s.freshStart && s.token && BeforeShutdown(s.phase) ==> s.registered)
    && (s.phase.WritingToken? || s.phase.Spawning? || s.phase.Serving? || s.phase.JoiningSweeper? ==> s.registered)
    && (s.freshStart && s.token ==>
          && !s.phase.Booting? && !s.phase.Connecting? && !s.phase.Subscribing?
          && !s.phase.Flushing? && !s.phase.WritingToken?)
    && (s.freshStart ==> s.lost == [])
  }

  predicate Inv(s: Daemon) {
    MutexIsHeld(s) && NothingLost(s) && SweeperFollowsMain(s) && DrainIsFinal(s) && TokenMeansReady(s)
  }

  lemma MainKeepsOrder(s: Daemon, l: Label)
    requires Inv(s)
    ensures var t := MainStep(s, l);
      MutexIsHeld(t) && NothingLost(t) && SweeperFollowsMain(t) && t.freshStart == s.freshStart
  {
    hide TokenMeansReady, DrainIsFinal;
  }

  lemma MainKeepsPromises(s: Daemon, l: Label)
    requires Inv(s)
    ensures DrainIsFinal(MainStep(s, l)) && TokenMeansReady(MainStep(s, l))
  {
    hide NothingLost;
  }

  lemma MainKeepsInv(s: Daemon, l: Label)
    requires Inv(s)
    ensures Inv(MainStep(s, l)) && MainStep(s, l).freshStart == s.freshStart
  {
    hide MainStep, MutexIsHeld, NothingLost, SweeperFollowsMain, DrainIsFinal, TokenMeansReady;
    MainKeepsOrder(s, l);
    MainKeepsPromises(s, l);
  }

  lemma BusKeepsInv(s: Daemon, l: Label)
    requires Inv(s)
    ensures Inv(BusStep(s, l)) && BusStep(s, l).freshStart == s.freshStart
  {
    if l.Publish? {
      assert s.handled + InFlight(s.handler) + s.queue + [l.m] == s.handled + InFlight(s.handler) + (s.queue + [l.m]);
    }
  }

  lemma SweeperKeepsInv(s: Daemon, l: Label)
    requires Inv(s)
    ensures Inv(SweeperStep(s, l)) && SweeperStep(s, l).freshStart == s.freshStart
  {
  }

  lemma HandlerKeepsInv(s: Daemon, l: Label)
    requires Inv(s)
    ensures Inv(HandlerStep(s, l)) && HandlerStep(s, l).freshStart == s.freshStart
  {
    if l.Take? && s.queue != [] {
      assert s.queue == [s.queue[0]] + s.queue[1..];
      assert s.handled + [] + s.queue == s.handled + [s.queue[0]] + s.queue[1..];
    } else if l.HandleUnlock? && s.handler.Handling? {
      assert s.handled + [s.handler.m] + s.queue == s.handled + [s.handler.m] + [] + s.queue;
    }
  }

  lemma StepKeepsInv(s: Daemon, l: Label)
    requires Inv(s)
    ensures Inv(Apply(s, l)) && Apply(s, l).freshStart == s.freshStart
  {
    hide Inv, MainStep, BusStep, SweeperStep, HandlerStep;
    MainKeepsInv(s, l);
    BusKeepsInv(MainStep(s, l), l);
    SweeperKeepsInv(BusStep(MainStep(s, l), l), l);
    HandlerKeepsInv(SweeperStep(BusStep(MainStep(s, l), l), l), l);
  }

  lemma {:induction false} RunKeepsInv(s: Daemon, labels: seq<Label>)
    requires Inv(s)
    ensures Inv(Run(s, labels)) && Run(s, labels).freshStart == s.freshStart
    decreases |labels|
  {
    hide Inv, Apply;
    if labels != [] {
      StepKeepsInv(s, labels[0]);
      RunKeepsInv(Apply(s, labels[0]), labels[1..]);
    }
  }

  /**
   In every run: the critical sections of handle and sweep never overlap; if
   Drain returned without timing out, nobody touches the closed store, and every
   message delivered to the subscription has been handled, in order.
   */
  lemma ShutdownIsSafe(freshStart: bool, labels: seq<Label>)
    ensures var s := Run(Start(freshStart), labels);
      && !(s.handler.Handling? && s.sweeper.Sweeping?)
      && s.handled <= s.delivered
      && (s.drained ==> !s.touchedClosed && s.handled == s.delivered && s.handler.Resting? && !s.sweeper.Sweeping?)
  {
    hide Run;
    RunKeepsInv(Start(freshStart), labels);
    var s := Run(Start(freshStart), labels);
    assert s.handled + InFlight(s.handler) + s.queue == s.handled + (InFlight(s.handler) + s.queue);
    assert s.drained ==> s.handled + [] + [] == s.handled;
  }

  /**
   On a start without a token file, a readable token means events are routed, and
   no client that read it loses one.
   */
  lemma ReadyWhenTokenReadable(labels: seq<Label>)
    ensures var s := Run(Start(true), labels);
      && (s.token && s.phase !in {Draining, ClosingBus, StoppingServer, ClosingStore, Done} ==> s.registered)
      && s.lost == []
  {
    RunKeepsInv(Start(true), labels);
  }

  /** The daemon goes down on a signal only. */
  predicate StopsOnSignal(s: Daemon) {
    s.phase.JoiningSweeper? || s.phase.Draining? || s.sweeper.Exited? ==> s.signalled
  }

  lemma {:induction false} NoStopWithoutSignal(s: Daemon, labels: seq<Label>)
    requires StopsOnSignal(s)
    ensures StopsOnSignal(Run(s, labels))
    ensures Signal !in labels ==> Run(s, labels).signalled == s.signalled
    decreases |labels|
  {
    hide Apply, StopsOnSignal;
    if labels != [] {
      SignalStep(s, labels[0]);
      NoStopWithoutSignal(Apply(s, labels[0]), labels[1..]);
    }
  }

  lemma SignalStep(s: Daemon, l: Label)
    requires StopsOnSignal(s)
    ensures StopsOnSignal(Apply(s, l)) && (l != Signal ==> Apply(s, l).signalled == s.signalled)
  {
  }

  /** Until it is signalled a daemon that has come up keeps serving and sweeping. */
  lemma ServesUntilSignalled(freshStart: bool, labels: seq<Label>)
    requires Signal !in labels
    ensures var s := Run(Start(freshStart), labels);
      !s.phase.JoiningSweeper? && !s.phase.Draining? && !s.sweeper.Exited?
  {
    hide Run;
    NoStopWithoutSignal(Start(freshStart), labels);
  }

  // ---- after the bus is closed ----

  predicate PastBus(p: Phase) {
    p.StoppingServer? || p.ClosingStore? || p.Done?
  }

  /** A bus that was closed routes nothing. */
  predicate ClosedIsSilent(s: Daemon) {
    PastBus(s.phase) ==> !s.registered
  }

  lemma SilentStep(s: Daemon, l: Label)
    requires ClosedIsSilent(s)
    ensures ClosedIsSilent(Apply(s, l))
    ensures PastBus(s.phase) ==>
      var t := Apply(s, l);
      PastBus(t.phase) && t.delivered == s.delivered && t.queue == s.queue && t.lost == s.lost
  {
  }

  lemma {:induction false} SilentRun(s: Daemon, labels: seq<Label>)
    requires ClosedIsSilent(s)
    ensures ClosedIsSilent(Run(s, labels))
    ensures PastBus(s.phase) ==>
      var t := Run(s, labels);
      PastBus(t.phase) && t.delivered == s.delivered && t.queue == s.queue && t.lost == s.lost
    decreases |labels|
  {
    hide Apply, ClosedIsSilent, PastBus;
    if labels != [] {
      SilentStep(s, labels[0]);
      SilentRun(Apply(s, labels[0]), labels[1..]);
    }
  }

  /** Once the bus is closed no message is delivered any more, and none that was is taken up. */
  lemma NothingAfterClosing(freshStart: bool, labels: seq<Label>, more: seq<Label>)
    ensures var s := Run(Start(freshStart), labels);
      var t := Run(s, more);
      s.phase.StoppingServer? || s.phase.ClosingStore? || s.phase.Done? ==>
        t.delivered == s.delivered && t.queue == s.queue && t.lost == s.lost
  {
    hide Run;
    SilentRun(Start(freshStart), labels);
    SilentRun(Run(Start(freshStart), labels), more);
  }

  /** A client that publishes while no server runs is told so: its message is not among the lost ones. */
  lemma NoServerNoMessage(s: Daemon, m: nat, readToken: bool)
    requires s.phase.Booting? || s.phase.ClosingStore? || s.phase.Done?
    ensures Apply(s, Publish(m, readToken)) == s
  {
  }

  // ---- leaving without a finished drain ----

  /** Some continuation has someone use the store after it was closed. */
  ghost predicate MayTouchClosed(s: Daemon) {
    exists labels :: Run(s, labels).touchedClosed
  }

  /** The subscription is still routed to, or a message of it has not been handled. */
  predicate Pending(s: Daemon) {
    s.registered || s.queue != [] || !s.handler.Resting?
  }

  lemma StepTouches(s: Daemon, l: Label)
    requires MayTouchClosed(Apply(s, l))
    ensures MayTouchClosed(s)
  {
    hide Apply;
    var labels :| Run(Apply(s, l), labels).touchedClosed;
    assert ([l] + labels)[1..] == labels;
    assert Run(s, [l] + labels) == Run(Apply(s, l), labels);
  }

  lemma HandlingTouches(s: Daemon)
    requires s.phase.ClosingBus? && s.handler.Handling?
    ensures MayTouchClosed(s)
  {
    hide MayTouchClosed;
    var s1 := Apply(s, CloseBus);
    var s2 := Apply(s1, StopServer);
    var s3 := Apply(s2, CloseStore);
    var s4 := Apply(s3, HandleUsesStore);
    Touched(s4);
    StepTouches(s3, HandleUsesStore);
    StepTouches(s2, CloseStore);
    StepTouches(s1, StopServer);
    StepTouches(s, CloseBus);
  }

  lemma Touched(s: Daemon)
    requires s.touchedClosed
    ensures MayTouchClosed(s)
  {
    assert Run(s, []).touchedClosed;
  }

  lemma WaitingTouches(s: Daemon)
    requires Inv(s) && s.phase.ClosingBus? && s.handler.WantsHandle?
    ensures MayTouchClosed(s)
  {
    hide MayTouchClosed;
    HandlingTouches(Apply(s, HandleLock));
    StepTouches(s, HandleLock);
  }

  lemma QueueTouches(s: Daemon)
    requires Inv(s) && s.phase.ClosingBus? && s.handler.Resting? && s.queue != []
    ensures MayTouchClosed(s)
  {
    hide MayTouchClosed, Inv;
    StepKeepsInv(s, Take);
    WaitingTouches(Apply(s, Take));
    StepTouches(s, Take);
  }

  lemma PendingTouches(s: Daemon)
    requires Inv(s) && s.phase.ClosingBus? && Pending(s)
    ensures MayTouchClosed(s)
  {
    hide MayTouchClosed, Inv;
    if s.handler.Handling? {
      HandlingTouches(s);
    } else if s.handler.WantsHandle? {
      WaitingTouches(s);
    } else if s.queue != [] {
      QueueTouches(s);
    } else {
      StepKeepsInv(s, Publish(0, false));
      QueueTouches(Apply(s, Publish(0, false)));
      StepTouches(s, Publish(0, false));
    }
  }

  /** Nothing is left to run once the bus is being closed, and nothing can arrive. */
  predicate Quiescent(s: Daemon) {
    && (s.phase.ClosingBus? || s.phase.StoppingServer? || s.phase.ClosingStore? || s.phase.Done?)
    && !Pending(s) && (s.sweeper.NotStarted? || s.sweeper.Exited?) && !s.touchedClosed
  }

  lemma MainStaysQuiescent(s: Daemon, l: Label)
    requires Quiescent(s)
    ensures Quiescent(MainStep(s, l))
  {
  }

  lemma OthersStayQuiescent(s: Daemon, l: Label)
    requires Quiescent(s)
    ensures Quiescent(BusStep(s, l)) && Quiescent(SweeperStep(s, l)) && Quiescent(HandlerStep(s, l))
  {
  }

  lemma {:induction false} QuiescentForever(s: Daemon, labels: seq<Label>)
    requires Quiescent(s)
    ensures Quiescent(Run(s, labels))
    decreases |labels|
  {
    hide Quiescent, MainStep, BusStep, SweeperStep, HandlerStep;
    if labels != [] {
      var l := labels[0];
      MainStaysQuiescent(s, l);
      OthersStayQuiescent(MainStep(s, l), l);
      OthersStayQuiescent(BusStep(MainStep(s, l), l), l);
      OthersStayQuiescent(SweeperStep(BusStep(MainStep(s, l), l), l), l);
      QuiescentForever(Apply(s, l), labels[1..]);
    }
  }

  /**
   The exact condition for a safe shutdown, on whichever path the main goroutine
   comes to close the bus: a finished drain, a drain that timed out, or a failed
   start, which never drains. Someone may yet use the closed store if and only if
   the subscription is still routed to or one of its messages is unhandled.
   */
  lemma ClosingIsSafeUnlessPending(freshStart: bool, labels: seq<Label>)
    requires Run(Start(freshStart), labels).phase.ClosingBus?
    ensures var s := Run(Start(freshStart), labels);
      MayTouchClosed(s) <==> Pending(s)
  {
    hide MayTouchClosed, Run, Apply;
    RunKeepsInv(Start(freshStart), labels);
    ClosingExactly(Run(Start(freshStart), labels));
  }

  lemma ClosingExactly(s: Daemon)
    requires Inv(s) && s.phase.ClosingBus?
    ensures MayTouchClosed(s) <==> Pending(s)
  {
    hide Run, Apply;
    if Pending(s) {
      PendingTouches(s);
    } else {
      forall labels ensures !Run(s, labels).touchedClosed {
        assert Quiescent(s);
        QuiescentForever(s, labels);
      }
    }
  }

  /** So a drain that times out is unsafe exactly when it had something left to wait for. */
  lemma TimeoutIsUnsafe(freshStart: bool, labels: seq<Label>)
    requires Run(Start(freshStart), labels).phase.Draining?
    ensures var s := Run(Start(freshStart), labels);
      MayTouchClosed(Apply(s, DrainTimesOut)) <==> s.registered || s.queue != [] || !s.handler.Resting?
  {
    hide MayTouchClosed, Run;
    RunKeepsInv(Start(freshStart), labels);
    StepKeepsInv(Run(Start(freshStart), labels), DrainTimesOut);
    ClosingExactly(Apply(Run(Start(freshStart), labels), DrainTimesOut));
  }

  function Four(s: Daemon, a: Label, b: Label, c: Label, d: Label): Daemon {
    Apply(Apply(Apply(Apply(s, a), b), c), d)
  }

  lemma RunOne(s: Daemon, a: Label, rest: seq<Label>)
    ensures Run(s, [a] + rest) == Run(Apply(s, a), rest)
  {
    assert ([a] + rest)[1..] == rest;
  }

  lemma RunFour(s: Daemon, a: Label, b: Label, c: Label, d: Label, rest: seq<Label>)
    ensures Run(s, [a, b, c, d] + rest) == Run(Four(s, a, b, c, d), rest)
  {
    hide Apply, Run;
    RunOne(s, a, [b, c, d] + rest);
    RunOne(Apply(s, a), b, [c, d] + rest);
    RunOne(Apply(Apply(s, a), b), c, [d] + rest);
    RunOne(Apply(Apply(Apply(s, a), b), c), d, rest);
    assert [a, b, c, d] + rest == [a] + ([b, c, d] + rest);
    assert [b, c, d] + rest == [b] + ([c, d] + rest);
    assert [c, d] + rest == [c] + ([d] + rest);
  }

  lemma Starting(freshStart: bool)
    ensures Four(Start(freshStart), StartServer, Connect, Subscribe, ServerRegisters)
      == Start(freshStart).(phase := Flushing, registered := true)
  {
  }

  lemma FirstSweep(s: Daemon)
    requires s == Start(true).(phase := Flushing, registered := true)
    ensures Four(s, Flush, WriteToken, Spawn, SweepLock)
      == s.(phase := Serving, token := true, sweeper := Sweeping, mutex := TheSweeper)
  {
  }

  lemma FirstHandle(s: Daemon, m: nat)
    requires s.phase.Serving? && s.sweeper.Sweeping? && s.token && s.registered
      && s.queue == s.delivered == [] && s.handler.Resting?
    ensures Four(s, SweepUnlock, Publish(m, true), Take, HandleLock)
      == s.(sweeper := Selecting, mutex := TheHandler, handler := Handling(m), delivered := [m])
  {
    var s2 := Apply(Apply(s, SweepUnlock), Publish(m, true));
    assert s2 == s.(sweeper := Selecting, mutex := Nobody, queue := [m], delivered := [m]);
    assert [m][1..] == [];
  }

  lemma Stopping(s: Daemon, m: nat)
    requires s.phase.Serving? && s.sweeper.Selecting? && s.handler == Handling(m)
    ensures Four(s, Signal, SweepLoopReturns, Wake, Join) == s.(phase := Draining, signalled := true, sweeper := Exited)
  {
  }

  lemma ToDrain(m: nat, rest: seq<Label>)
    ensures var s := Start(true).(
          phase := Draining, token := true, registered := true, signalled := true, sweeper := Exited,
          handler := Handling(m), mutex := TheHandler, delivered := [m]);
      Run(Start(true), [
        StartServer, Connect, Subscribe, ServerRegisters, Flush, WriteToken, Spawn, SweepLock,
        SweepUnlock, Publish(m, true), Take, HandleLock, Signal, SweepLoopReturns, Wake, Join] + rest) == Run(s, rest)
  {
    hide Run, Four;
    var r3 := [Signal, SweepLoopReturns, Wake, Join] + rest;
    var r2 := [SweepUnlock, Publish(m, true), Take, HandleLock] + r3;
    var r1 := [Flush, WriteToken, Spawn, SweepLock] + r2;
    var s1 := Start(true).(phase := Flushing, registered := true);
    var s2 := s1.(phase := Serving, token := true, sweeper := Sweeping, mutex := TheSweeper);
    var s3 := s2.(sweeper := Selecting, mutex := TheHandler, handler := Handling(m), delivered := [m]);
    Starting(true);
    RunFour(Start(true), StartServer, Connect, Subscribe, ServerRegisters, r1);
    FirstSweep(s1);
    RunFour(s1, Flush, WriteToken, Spawn, SweepLock, r2);
    FirstHandle(s2, m);
    RunFour(s2, SweepUnlock, Publish(m, true), Take, HandleLock, r3);
    Stopping(s3, m);
    RunFour(s3, Signal, SweepLoopReturns, Wake, Join, rest);
    assert [
        StartServer, Connect, Subscribe, ServerRegisters, Flush, WriteToken, Spawn, SweepLock,
        SweepUnlock, Publish(m, true), Take, HandleLock, Signal, SweepLoopReturns, Wake, Join] + rest
      == [StartServer, Connect, Subscribe, ServerRegisters] + r1;
  }

  /** A whole run to a drain that times out under a running handler. */
  lemma SomeTimeoutTouches(m: nat)
    ensures Run(Start(true), [
        StartServer, Connect, Subscribe, ServerRegisters, Flush, WriteToken, Spawn, SweepLock,
        SweepUnlock, Publish(m, true), Take, HandleLock, Signal, SweepLoopReturns, Wake, Join]
        + [DrainTimesOut, CloseBus, StopServer, CloseStore, HandleUsesStore]).touchedClosed
  {
    hide Run;
    var closing := [CloseBus, StopServer, CloseStore, HandleUsesStore];
    var s := Start(true).(
      phase := Draining, token := true, registered := true, signalled := true, sweeper := Exited,
      handler := Handling(m), mutex := TheHandler, delivered := [m]);
    assert [DrainTimesOut, CloseBus, StopServer, CloseStore, HandleUsesStore] == [DrainTimesOut] + closing;
    ToDrain(m, [DrainTimesOut] + closing);
    RunOne(s, DrainTimesOut, closing);
    ClosingRun(Apply(s, DrainTimesOut), m);
  }

  /** The same run with a drain that waits: the handler returns, and so does Drain. */
  lemma SomeDrainReturns(m: nat)
    ensures var s := Run(Start(true), [
        StartServer, Connect, Subscribe, ServerRegisters, Flush, WriteToken, Spawn, SweepLock,
        SweepUnlock, Publish(m, true), Take, HandleLock, Signal, SweepLoopReturns, Wake, Join]
        + [ServerUnregisters, HandleUnlock, DrainReturns, CloseBus]);
      s.drained && s.handled == [m] && s.phase.StoppingServer?
  {
    hide Run;
    var s := Start(true).(
      phase := Draining, token := true, registered := true, signalled := true, sweeper := Exited,
      handler := Handling(m), mutex := TheHandler, delivered := [m]);
    ToDrain(m, [ServerUnregisters, HandleUnlock, DrainReturns, CloseBus]);
    RunFour(s, ServerUnregisters, HandleUnlock, DrainReturns, CloseBus, []);
    assert [ServerUnregisters, HandleUnlock, DrainReturns, CloseBus] + []
      == [ServerUnregisters, HandleUnlock, DrainReturns, CloseBus];
    Drained(s, m);
    RunOfNothing(Four(s, ServerUnregisters, HandleUnlock, DrainReturns, CloseBus));
  }

  lemma RunOfNothing(s: Daemon)
    ensures Run(s, []) == s
  {
  }

  lemma Drained(s: Daemon, m: nat)
    requires s.phase.Draining? && s.handler == Handling(m) && s.queue == [] && s.handled == []
    ensures var t := Four(s, ServerUnregisters, HandleUnlock, DrainReturns, CloseBus);
      t.drained && t.handled == [m] && t.phase.StoppingServer?
  {
    var s2 := Apply(Apply(s, ServerUnregisters), HandleUnlock);
    assert s2 == s.(registered := false, handler := Resting, mutex := Nobody, handled := [m]);
  }

  lemma ClosingRun(s: Daemon, m: nat)
    requires s.phase.ClosingBus? && s.handler == Handling(m)
    ensures Run(s, [CloseBus, StopServer, CloseStore, HandleUsesStore]).touchedClosed
  {
    var labels := [CloseBus, StopServer, CloseStore, HandleUsesStore];
    RunFour(s, CloseBus, StopServer, CloseStore, HandleUsesStore, []);
    assert labels + [] == labels;
    assert Four(s, CloseBus, StopServer, CloseStore, HandleUsesStore).touchedClosed;
  }

  lemma FailedStart(s: Daemon, m: nat)
    requires s == Start(false).(phase := Flushing, registered := true)
    ensures var t := Four(s, Publish(m, true), Take, HandleLock, StartupFails);
      t.phase.ClosingBus? && t.handler == Handling(m)
  {
    var s2 := Apply(Apply(s, Publish(m, true)), Take);
    assert s2 == s.(handler := WantsHandle(m), delivered := [m]) by {
      assert Apply(s, Publish(m, true)) == s.(queue := [m], delivered := [m]);
      assert [m][1..] == [];
    }
  }

  /** A start that fails while the server already routes events is unsafe in the same way, without any drain. */
  lemma SomeFailedStartTouches(m: nat)
    ensures Run(Start(false), [
        StartServer, Connect, Subscribe, ServerRegisters, Publish(m, true), Take, HandleLock, StartupFails,
        CloseBus, StopServer, CloseStore, HandleUsesStore]).touchedClosed
  {
    hide Run, Four;
    var r2 := [CloseBus, StopServer, CloseStore, HandleUsesStore];
    var r1 := [Publish(m, true), Take, HandleLock, StartupFails] + r2;
    var s1 := Start(false).(phase := Flushing, registered := true);
    Starting(false);
    RunFour(Start(false), StartServer, Connect, Subscribe, ServerRegisters, r1);
    RunFour(s1, Publish(m, true), Take, HandleLock, StartupFails, r2);
    FailedStart(s1, m);
    ClosingRun(Four(s1, Publish(m, true), Take, HandleLock, StartupFails), m);
    assert [StartServer, Connect, Subscribe, ServerRegisters] + r1 == [
        StartServer, Connect, Subscribe, ServerRegisters, Publish(m, true), Take, HandleLock, StartupFails,
        CloseBus, StopServer, CloseStore, HandleUsesStore];
  }

  /** The promise holds for fresh starts only: with a token left from an earlier run, an early event is dropped. */
  lemma OldTokenPromisesNothing(m: nat)
    ensures Run(Start(false), [StartServer, Publish(m, true)]).lost == [m]
  {
    var labels := [StartServer, Publish(m, true)];
    assert labels[1..] == [Publish(m, true)];
    var up := Apply(Start(false), StartServer);
    assert Run(Start(false), labels) == Run(up, [Publish(m, true)]);
    assert [Publish(m, true)][1..] == [];
    assert Run(up, [Publish(m, true)]) == Run(Apply(up, Publish(m, true)), []);
  }
}
