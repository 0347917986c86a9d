/** The controller among its callers: guest agent, ping timers, control connections and
    the sleep inhibitor. */
module DriverModel {
  import opened Common
  import opened Messages
  import opened ControllerModel
  import opened Histories
  import Ownership
  import Suspension

  // ----- control connections -----

  // tempEntry: the connection entered temporarily and may only exit; waiting: the
  // suspend waiter that holds up the next request; forwarders: the tasks that forward
  // from a temporary entry's channel to the socket; announced: what the handler itself has
  // said about temporary entries, without what the tasks forward.
  datatype Connection = Connection(
    tempEntry: bool,
    open: bool,
    waiting: Option<nat>,
    forwarders: nat,
    announced: seq<ControlCmdOut>)

  const ACCEPTED := Connection(false, true, None, 0, [])

  // The call that a request makes; a temporary entry only ever exits.
  function RequestOp(tempEntry: bool, id: nat, req: ControlCmdIn, env: Env): Op {
    if tempEntry then OpTemporaryExit
    else
      match req
      case IoEntry => OpIoAttach(env)
      case TryIoEntry => OpTryAttach(env)
      case LightEntry => OpLightAttach
      case Shutdown => OpShutdown
      case ForceIoEntry => OpForceAttach(env)
      case IoExit => OpIoDetach
      case Suspend => OpSuspend
      case TemporaryLightEntry(x, y) => OpTemporaryEntry(id, x, y)
      case EnterBackupMode => OpBackup(env.existing, false)
      case LeaveBackupMode => OpBackup(env.existing, true)
  }

  // What becomes of the connection, given the controller before the call.
  function AfterRequest(conn: Connection, c: Controller, req: ControlCmdIn): Connection {
    if conn.tempEntry then
      if req.IoExit? then conn.(tempEntry := false) else conn.(open := false)
    else
      match req
      case Suspend => conn.(waiting := SuspendMachine(c).1)
      case TemporaryLightEntry(_, _) =>
        if TemporaryEntryPossible(c) then
          conn.(
            tempEntry := true,
            forwarders := conn.forwarders + 1,
            announced := conn.announced + [TemporaryLightAttached])
        else conn.(open := false)
      case _ => conn
  }

  function AfterForwarder(conn: Connection): Connection
    requires conn.forwarders > 0
  {
    conn.(forwarders := conn.forwarders - 1, announced := conn.announced + [TemporaryLightDetached])
  }

  // ----- guest agent messages and ping timers -----

  datatype GaCmdIn =
    | ReportBoot
    | Suspending
    | Pong
    | HotKey(id: nat)
    | MouseEdged(x: int, y: int)
    | Unrelated

  function MessageOp(msg: GaCmdIn, env: Env): Option<Op> {
    match msg
    case ReportBoot => Some(OpHello(env))
    case Suspending => Some(OpSuspending)
    case Pong => Some(OpPong)
    case HotKey(id) => Some(OpHotkey(id, env))
    case MouseEdged(x, y) => Some(OpMouse(x, y))
    case Unrelated => None
  }

  function TimersAfterMessage(cfg: Config, c: Controller, timers: nat, msg: GaCmdIn, env: Env): nat {
    if msg.ReportBoot? && GaHello(cfg, c, env).1 then timers + 1 else timers
  }

  function TimersAfterTick(cfg: Config, c: Controller, timers: nat): nat
    requires timers > 0
  {
    if GaPing(cfg, c).1 then timers else timers - 1
  }

  // ----- the whole -----

  // lock: the inhibitor lock is held; awaiting: the waiter on whose completion the
  // running sleep signal waits; sleepCall: how often the machine had been suspended
  // when the latest sleep signal called.
  datatype World = World(
    h: History,
    timers: nat,
    conns: map<nat, Connection>,
    lock: bool,
    awaiting: Option<nat>,
    sleepCall: nat)

  const BOOTED := World(START, 0, map[], true, None, 0)

  datatype Event =
    | Message(msg: GaCmdIn, env: Env)
    | Tick
    | MachineSuspended
    | LocalHotKey(index: nat, env: Env)
    | Terminate
    | Accept(id: nat)
    | Request(id: nat, req: ControlCmdIn, env: Env)
    | RequestResumes(id: nat)
    | ForwarderEnds(id: nat)
    | PrepareForSleep(starting: bool)
    | SleepResumes

  predicate Enabled(w: World, e: Event) {
    match e
    case Tick => w.timers > 0
    case Accept(id) => id !in w.conns
    case Request(id, _, _) => id in w.conns && w.conns[id].open && w.conns[id].waiting.None?
    case RequestResumes(id) =>
      id in w.conns && w.conns[id].waiting.Some? && w.conns[id].waiting.value in w.h.c.completed
    case ForwarderEnds(id) => id in w.conns && w.conns[id].forwarders > 0
    case PrepareForSleep(_) => w.awaiting.None?
    case SleepResumes => w.awaiting.Some? && w.awaiting.value in w.h.c.completed
    case _ => true
  }

  // The controller call of an event.
  function EventOp(w: World, e: Event): Option<Op>
    requires Enabled(w, e)
  {
    match e
    case Message(msg, env) => MessageOp(msg, env)
    case Tick => Some(OpPing)
    case MachineSuspended => Some(OpQemuSuspended)
    case LocalHotKey(index, env) => Some(OpHotkey(index, env))
    case Terminate => Some(OpShutdown)
    case Request(id, req, env) => Some(RequestOp(w.conns[id].tempEntry, id, req, env))
    case ForwarderEnds(_) => Some(OpTemporaryExit)
    case PrepareForSleep(starting) => if starting then Some(OpSuspend) else None
    case _ => None
  }

  // Everything but the controller.
  function Surroundings(cfg: Config, w: World, e: Event): World
    requires Enabled(w, e)
  {
    var c := w.h.c;
    match e
    case Message(msg, env) => w.(timers := TimersAfterMessage(cfg, c, w.timers, msg, env))
    case Tick => w.(timers := TimersAfterTick(cfg, c, w.timers))
    case Accept(id) => w.(conns := w.conns[id := ACCEPTED])
    case Request(id, req, _) => w.(conns := w.conns[id := AfterRequest(w.conns[id], c, req)])
    case RequestResumes(id) => w.(conns := w.conns[id := w.conns[id].(waiting := None)])
    case ForwarderEnds(id) => w.(conns := w.conns[id := AfterForwarder(w.conns[id])])
    case PrepareForSleep(starting) =>
      if starting then
        var waiter := SuspendMachine(c).1;
        w.(sleepCall := w.h.suspends, awaiting := waiter, lock := w.lock && waiter.Some?)
      else w.(lock := true)
    case SleepResumes => w.(awaiting := None, lock := false)
    case _ => w
  }

  // An event that is not enabled does not happen.
  function Step(cfg: Config, w: World, e: Event): World {
    if !Enabled(w, e) then w
    else
      match EventOp(w, e)
      case Some(op) => Surroundings(cfg, w, e).(h := Advance(cfg, w.h, op))
      case None => Surroundings(cfg, w, e)
  }

  function Run(cfg: Config, events: seq<Event>): World {
    if events == [] then BOOTED
    else Step(cfg, Run(cfg, events[..|events| - 1]), events[|events| - 1])
  }

  // ----- every run -----

  // A temporary entry belongs to a connection that knows it has one.
  predicate OwnerKnows(w: World) {
    w.h.c.io.TemporaryLightEntry? ==>
      w.h.c.io.sender in w.conns && w.conns[w.h.c.io.sender].tempEntry
  }

  // The running sleep signal waits for a waiter of its own call.
  predicate AwaitsOwnCall(w: World) {
    w.awaiting.Some? ==>
      w.awaiting.value < w.h.c.waiters == |w.h.issued| && w.h.issued[w.awaiting.value] == w.sleepCall
  }

  ghost predicate Invariant(w: World) {
    && Ownership.GrabsAreSane(w.h.c)
    && Ownership.Consistent(w.h.c)
    && OneWakeup(w.h)
    && PingsAnswered(w.h)
    && WaitersConserved(w.h)
    && Suspension.WaitsForRequested(w.h)
    && OwnerKnows(w)
    && AwaitsOwnCall(w)
  }

  lemma EntryMoves(cfg: Config, c: Controller, op: Op)
    ensures Apply(cfg, c, op).io.TemporaryLightEntry? ==>
              Apply(cfg, c, op).io == c.io
              || (op.OpTemporaryEntry? && TemporaryEntryPossible(c) && Apply(cfg, c, op).io.sender == op.sender)
    ensures op.OpTemporaryExit? ==> !Apply(cfg, c, op).io.TemporaryLightEntry?
  {
    if op.OpHello? {
      assert GreetAgent(cfg, c, op.env).io.TemporaryLightEntry? ==> GreetAgent(cfg, c, op.env).io == c.io;
    }
  }

  lemma StepKeepsOwner(cfg: Config, w: World, e: Event)
    requires OwnerKnows(w)
    ensures OwnerKnows(Step(cfg, w, e))
  {
    if Enabled(w, e) && EventOp(w, e).Some? {
      EntryMoves(cfg, w.h.c, EventOp(w, e).value);
    }
  }

  lemma StepKeepsAwaited(cfg: Config, w: World, e: Event)
    requires AwaitsOwnCall(w) && WaitersConserved(w.h)
    ensures AwaitsOwnCall(Step(cfg, w, e))
  {
    if Enabled(w, e) && EventOp(w, e).Some? {
      var op := EventOp(w, e).value;
      if !op.OpQemuSuspended? && !(op.OpSuspend? && !w.h.c.ga.Suspended?) {
        WaiterMoves(cfg, w.h.c, op);
      }
    }
  }

  lemma StepKeepsInvariant(cfg: Config, w: World, e: Event)
    requires Invariant(w)
    ensures Invariant(Step(cfg, w, e))
  {
    StepKeepsOwner(cfg, w, e);
    StepKeepsAwaited(cfg, w, e);
    if Enabled(w, e) && EventOp(w, e).Some? {
      var op := EventOp(w, e).value;
      Ownership.ApplySane(cfg, w.h.c, op);
      AdvanceKeepsCounts(cfg, w.h, op);
      AdvanceKeepsWaiters(cfg, w.h, op);
      Suspension.AdvanceKeepsRequested(cfg, w.h, op);
    }
  }

  lemma {:induction false} EveryRunKeepsInvariant(cfg: Config, events: seq<Event>)
    ensures Invariant(Run(cfg, events))
  {
    if events != [] {
      EveryRunKeepsInvariant(cfg, events[..|events| - 1]);
      StepKeepsInvariant(cfg, Run(cfg, events[..|events| - 1]), events[|events| - 1]);
    }
  }

  // Exclusive ownership over every run in which no event is the losing call.
  predicate LosingEvent(cfg: Config, w: World, e: Event) {
    Enabled(w, e) && EventOp(w, e).Some? && Ownership.LosesDevices(cfg, w.h.c, EventOp(w, e).value)
  }

  lemma {:induction false} ExclusiveUnlessLost(cfg: Config, events: seq<Event>)
    requires forall i :: 0 <= i < |events| ==> !LosingEvent(cfg, Run(cfg, events[..i]), events[i])
    ensures Ownership.Exclusive(cfg, Run(cfg, events).h.c)
  {
    if events != [] {
      var n := |events| - 1;
      forall i | 0 <= i < n ensures !LosingEvent(cfg, Run(cfg, events[..n][..i]), events[..n][i]) {
        assert events[..n][..i] == events[..i];
      }
      ExclusiveUnlessLost(cfg, events[..n]);
      var w := Run(cfg, events[..n]);
      if Enabled(w, events[n]) && EventOp(w, events[n]).Some? {
        Ownership.ApplyKeepsExclusive(cfg, w.h.c, EventOp(w, events[n]).value);
      }
    }
  }

  // ----- host sleep -----

  // The lock is dropped exactly if the machine is already suspended when the sleep
  // signal comes, or has been suspended since and the signal goes on.
  lemma LockDroppedIffSuspended(cfg: Config, events: seq<Event>, e: Event)
    ensures var w := Run(cfg, events);
            w.lock ==>
              (!Step(cfg, w, e).lock <==>
               || (e == PrepareForSleep(true) && w.awaiting.None? && w.h.c.ga.Suspended?)
               || (e == SleepResumes && w.awaiting.Some? && w.sleepCall < w.h.suspends))
  {
    EveryRunKeepsInvariant(cfg, events);
    var w := Run(cfg, events);
    if w.awaiting.Some? { ServedIff(w.h, w.awaiting.value); }
  }

  // A waiting sleep signal can go on as soon as, and only when, the machine has been
  // suspended since the signal; the lock is free afterwards.
  lemma SleepGoesOnIffSuspended(cfg: Config, events: seq<Event>)
    ensures var w := Run(cfg, events);
            w.awaiting.Some? ==>
              && (Enabled(w, SleepResumes) <==> w.sleepCall < w.h.suspends)
              && (w.sleepCall < w.h.suspends ==> !Step(cfg, w, SleepResumes).lock)
  {
    EveryRunKeepsInvariant(cfg, events);
    var w := Run(cfg, events);
    if w.awaiting.Some? { ServedIff(w.h, w.awaiting.value); }
  }

  // The lock is taken again exactly when the host has woken up.
  lemma LockTakenOnWakeUp(cfg: Config, w: World, e: Event)
    requires !w.lock
    ensures Step(cfg, w, e).lock <==> e == PrepareForSleep(false) && w.awaiting.None?
  {
  }

  // While a sleep signal waits for the machine, this has been asked to suspend, or has
  // announced it, since the latest time it did.
  lemma SleepIsRequested(cfg: Config, events: seq<Event>)
    ensures var w := Run(cfg, events);
            w.awaiting.Some? && w.sleepCall == w.h.suspends ==>
              w.h.requestsBefore < SuspendRequests(w.h.c.clientpipe) || w.h.suspending
  {
    EveryRunKeepsInvariant(cfg, events);
    var w := Run(cfg, events);
    if w.awaiting.Some? { ServedIff(w.h, w.awaiting.value); }
  }

  // ----- ping timers -----

  predicate OneTimer(w: World) {
    && w.timers <= 1
    && (w.h.c.ga.Up? || w.h.c.ga.Pinging? ==> w.timers == 1)
  }

  // The two ways in which a hello upsets the timers: it comes while the agent is said
  // to be suspending and the old timer has already ended, or it ends a suspension (or
  // downtime) that the old timer has not noticed yet.
  predicate UpsetsTimers(w: World, e: Event) {
    && e.Message? && e.msg.ReportBoot?
    && match w.h.c.ga
       case Suspending => w.timers == 0
       case Up => false
       case Pinging => false
       case _ => w.timers == 1
  }

  lemma StepKeepsOneTimer(cfg: Config, w: World, e: Event)
    requires OneTimer(w)
    ensures OneTimer(Step(cfg, w, e)) <==> !UpsetsTimers(w, e)
  {
    if Enabled(w, e) && EventOp(w, e).Some? {
      AgentMoves(cfg, w.h.c, EventOp(w, e).value);
    }
  }

  lemma {:induction false} OneTimerUnlessUpset(cfg: Config, events: seq<Event>)
    requires forall i :: 0 <= i < |events| ==> !UpsetsTimers(Run(cfg, events[..i]), events[i])
    ensures OneTimer(Run(cfg, events))
  {
    if events != [] {
      var n := |events| - 1;
      forall i | 0 <= i < n ensures !UpsetsTimers(Run(cfg, events[..n][..i]), events[..n][i]) {
        assert events[..n][..i] == events[..i];
      }
      OneTimerUnlessUpset(cfg, events[..n]);
      StepKeepsOneTimer(cfg, Run(cfg, events[..n]), events[n]);
    }
  }

  const BARE := Config([], [], [])
  const NOTHING := Env(map[], {})
  const BOOT := Message(ReportBoot, NOTHING)
  const GOING := Message(GaCmdIn.Suspending, NOTHING)

  // What the events below do to a detached driver.
  lemma DetachedSteps(w: World)
    requires w.h.c.io.Detached? && !w.h.c.ga.Resuming?
    ensures Step(BARE, w, BOOT).h.c.io.Detached? && Step(BARE, w, BOOT).h.c.ga.Up?
    ensures Step(BARE, w, BOOT).timers == if w.h.c.ga.Down? || w.h.c.ga.Suspended? then w.timers + 1 else w.timers
    ensures Step(BARE, w, GOING).h.c.io.Detached? && Step(BARE, w, GOING).h.c.ga.Suspending?
    ensures Step(BARE, w, GOING).timers == w.timers
    ensures Step(BARE, w, MachineSuspended).h.c.io.Detached? && Step(BARE, w, MachineSuspended).h.c.ga.Suspended?
    ensures Step(BARE, w, MachineSuspended).timers == w.timers
    ensures w.h.c.ga.Suspending? && w.timers > 0 ==>
              && Step(BARE, w, Tick).h.c == w.h.c && Step(BARE, w, Tick).timers == w.timers - 1
  {
  }

  // Both happen, from the start: two timers run after a quick suspension, and none
  // after a hello that revokes one.
  lemma TimersCanBeUpset()
    ensures var w := Step(BARE, Step(BARE, BOOTED, BOOT), GOING);
            && Step(BARE, Step(BARE, w, MachineSuspended), BOOT).timers == 2
            && Step(BARE, Step(BARE, w, Tick), BOOT).h.c.ga.Up?
            && Step(BARE, Step(BARE, w, Tick), BOOT).timers == 0
  {
    DetachedSteps(BOOTED);
    var up := Step(BARE, BOOTED, BOOT);
    DetachedSteps(up);
    var going := Step(BARE, up, GOING);
    DetachedSteps(going);
    DetachedSteps(Step(BARE, going, MachineSuspended));
    DetachedSteps(Step(BARE, going, Tick));
  }
}
