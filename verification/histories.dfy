/** What the controller keeps over whole runs: wake-ups, pings and suspend waiters. */
module Histories {
  import opened Common
  import opened Usb
  import opened Messages
  import opened ControllerModel

  // A controller together with what happened so far: how many times the machine
  // reported that it is suspended, how often that had been the case when each waiter
  // called, how many wake-ups and requests to suspend had been sent at the latest such
  // report, whether the agent has reported suspending since, and how many pings had been
  // sent at the latest hello or pong.
  datatype History = History(
    c: Controller,
    suspends: nat,
    issued: seq<nat>,
    wakeupsBefore: nat,
    requestsBefore: nat,
    suspending: bool,
    pingsBefore: nat)

  const START := History(INITIAL, 0, [], 0, 0, false, 0)

  function Wakeups(queue: seq<QmpCommand>): nat {
    if queue == [] then 0
    else Wakeups(queue[..|queue| - 1]) + (if queue[|queue| - 1].SystemWakeup? then 1 else 0)
  }

  function Pings(queue: seq<GaCmdOut>): nat {
    if queue == [] then 0
    else Pings(queue[..|queue| - 1]) + (if queue[|queue| - 1].Ping? then 1 else 0)
  }

  function SuspendRequests(queue: seq<GaCmdOut>): nat {
    if queue == [] then 0
    else SuspendRequests(queue[..|queue| - 1]) + (if queue[|queue| - 1].Suspend? then 1 else 0)
  }

  function Advance(cfg: Config, h: History, op: Op): History {
    var c := Apply(cfg, h.c, op);
    History(
      c,
      if op.OpQemuSuspended? then h.suspends + 1 else h.suspends,
      if c.waiters > h.c.waiters then h.issued + [h.suspends] else h.issued,
      if op.OpQemuSuspended? then Wakeups(c.monitor) else h.wakeupsBefore,
      if op.OpQemuSuspended? then SuspendRequests(c.clientpipe) else h.requestsBefore,
      op.OpSuspending? || (h.suspending && !op.OpQemuSuspended?),
      if op.OpHello? || op.OpPong? then Pings(c.clientpipe) else h.pingsBefore)
  }

  function AdvanceAll(cfg: Config, h: History, ops: seq<Op>): History {
    if ops == [] then h
    else Advance(cfg, AdvanceAll(cfg, h, ops[..|ops| - 1]), ops[|ops| - 1])
  }

  // ----- counting in the queues -----

  lemma {:induction false} WakeupsAppend(queue: seq<QmpCommand>, more: seq<QmpCommand>)
    ensures Wakeups(queue + more) == Wakeups(queue) + Wakeups(more)
  {
    if more == [] {
      assert queue + more == queue;
    } else {
      var last := |more| - 1;
      assert (queue + more)[..|queue| + last] == queue + more[..last];
      WakeupsAppend(queue, more[..last]);
    }
  }

  lemma {:induction false} PingsAppend(queue: seq<GaCmdOut>, more: seq<GaCmdOut>)
    ensures Pings(queue + more) == Pings(queue) + Pings(more)
  {
    if more == [] {
      assert queue + more == queue;
    } else {
      var last := |more| - 1;
      assert (queue + more)[..|queue| + last] == queue + more[..last];
      PingsAppend(queue, more[..last]);
    }
  }

  lemma {:induction false} NoPings(queue: seq<GaCmdOut>)
    requires forall i :: 0 <= i < |queue| ==> !queue[i].Ping?
    ensures Pings(queue) == 0
  {
    if queue != [] { NoPings(queue[..|queue| - 1]); }
  }

  lemma {:induction false} NoWakeups(queue: seq<QmpCommand>)
    requires forall i :: 0 <= i < |queue| ==> !queue[i].SystemWakeup?
    ensures Wakeups(queue) == 0
  {
    if queue != [] { NoWakeups(queue[..|queue| - 1]); }
  }

  lemma {:induction false} AddsAreNoWakeups(devices: seq<UsbDevice>, usb: Resolution, order: seq<nat>)
    requires forall p :: 0 <= p < |order| ==> order[p] < |devices|
    ensures Wakeups(HotplugAdds(devices, usb, order)) == 0
  {
    if order != [] {
      var last := |order| - 1;
      AddsAreNoWakeups(devices, usb, order[..last]);
      var adds := HotplugAdds(devices, usb, order[..last]);
      var k := order[last];
      if !devices[k].permanent && k in usb {
        WakeupsAppend(adds, [DeviceAdd(k, SlotOf(devices, k), usb[k])]);
      } else {
        assert HotplugAdds(devices, usb, order) == adds;
      }
    }
  }

  lemma {:induction false} DelsAreNoWakeups(devices: seq<UsbDevice>)
    ensures Wakeups(DetachDels(devices)) == 0
  {
    if devices != [] {
      var last := |devices| - 1;
      DelsAreNoWakeups(devices[..last]);
      if !devices[last].permanent {
        WakeupsAppend(DetachDels(devices[..last]), [DeviceDel(last)]);
      } else {
        assert DetachDels(devices) == DetachDels(devices[..last]);
      }
    }
  }

  lemma {:induction false} RegistrationsAreNoPings(hotkeys: seq<HotKey>)
    ensures forall i :: 0 <= i < |Registrations(hotkeys)| ==> Registrations(hotkeys)[i].RegisterHotKey?
  {
    if hotkeys != [] { RegistrationsAreNoPings(hotkeys[..|hotkeys| - 1]); }
  }

  // ----- what each call sends -----

  // A wake-up is sent exactly when the call takes the machine out of suspension.
  ghost predicate SendsWakeupIffWaking(c: Controller, r: Controller) {
    Wakeups(r.monitor) == Wakeups(c.monitor) + (if c.ga.Suspended? && r.ga.Resuming? then 1 else 0)
  }

  // A ping is sent exactly when the call starts to wait for an answer.
  ghost predicate SendsPingIffPinging(c: Controller, r: Controller) {
    Pings(r.clientpipe) == Pings(c.clientpipe) + (if c.ga.Up? && r.ga.Pinging? then 1 else 0)
  }

  ghost predicate SendsNothingCounted(c: Controller, r: Controller) {
    Wakeups(r.monitor) == Wakeups(c.monitor) && Pings(r.clientpipe) == Pings(c.clientpipe)
  }

  lemma LightAttachSends(c: Controller)
    ensures SendsWakeupIffWaking(c, LightAttach(c)) && SendsPingIffPinging(c, LightAttach(c))
  {
    if c.ga.Suspended? {
      WakeupsAppend(c.monitor, [SystemWakeup]);
    } else if c.io.Detached? && !c.ga.Suspending? {
      PingsAppend(c.clientpipe, [ReleaseModifiers]);
    }
  }

  lemma IoForceAttachSends(cfg: Config, c: Controller, env: Env)
    ensures SendsNothingCounted(c, IoForceAttach(cfg, c, env)) && IoForceAttach(cfg, c, env).ga == c.ga
  {
    var adds := HotplugAdds(cfg.usb, env.usb, SortByBus(cfg.usb));
    AddsAreNoWakeups(cfg.usb, env.usb, SortByBus(cfg.usb));
    WakeupsAppend(c.monitor, [ReleaseAllKeys]);
    WakeupsAppend(ReleaseLight(c).monitor, adds);
    PingsAppend(c.clientpipe, [ReleaseModifiers]);
  }

  lemma IoAttachSends(cfg: Config, c: Controller, env: Env)
    ensures SendsWakeupIffWaking(c, IoAttach(cfg, c, env)) && SendsPingIffPinging(c, IoAttach(cfg, c, env))
  {
    LightAttachSends(c);
    IoForceAttachSends(cfg, c, env);
    WakeupsAppend(c.monitor, [SystemWakeup]);
  }

  lemma IoDetachSends(cfg: Config, c: Controller)
    ensures SendsWakeupIffWaking(c, IoDetach(cfg, c)) && SendsPingIffPinging(c, IoDetach(cfg, c))
  {
    DelsAreNoWakeups(cfg.usb);
    WakeupsAppend(c.monitor, DetachDels(cfg.usb));
    WakeupsAppend(c.monitor, [ReleaseAllKeys]);
  }

  lemma GreetAgentSends(cfg: Config, c: Controller, env: Env)
    ensures SendsNothingCounted(c, GreetAgent(cfg, c, env)) && GreetAgent(cfg, c, env).ga.Up?
  {
    var up := c.(clientpipe := c.clientpipe + Registrations(cfg.hotkeys), ga := Up);
    RegistrationsAreNoPings(cfg.hotkeys);
    NoPings(Registrations(cfg.hotkeys));
    PingsAppend(c.clientpipe, Registrations(cfg.hotkeys));
    assert SendsNothingCounted(c, up);
    IoForceAttachSends(cfg, up, env);
    assert GreetAgent(cfg, c, env) == if up.io.AwaitingUpgrade? then IoForceAttach(cfg, up, env) else up;
  }

  lemma HelloGoesOn(cfg: Config, c: Controller, env: Env)
    ensures var r := GreetAgent(cfg, c, env);
            GaHello(cfg, c, env).0 ==
            if c.ga == Resuming(true) then IoForceAttach(cfg, r, env)
            else if c.ga == Resuming(false) then LightAttach(r)
            else r
  {
  }

  lemma CountedInTwo(a: Controller, b: Controller, c: Controller)
    requires SendsNothingCounted(a, b) && SendsNothingCounted(b, c)
    ensures SendsNothingCounted(a, c)
  {
  }

  lemma HelloSends(cfg: Config, c: Controller, env: Env)
    ensures SendsNothingCounted(c, GaHello(cfg, c, env).0) && GaHello(cfg, c, env).0.ga.Up?
  {
    var r := GreetAgent(cfg, c, env);
    GreetAgentSends(cfg, c, env);
    HelloGoesOn(cfg, c, env);
    WakingSends(cfg, r, env);
    if c.ga.Resuming? { CountedInTwo(c, r, GaHello(cfg, c, env).0); }
  }

  // What a hello does after it has greeted the agent.
  lemma WakingSends(cfg: Config, r: Controller, env: Env)
    requires r.ga.Up?
    ensures SendsNothingCounted(r, IoForceAttach(cfg, r, env)) && IoForceAttach(cfg, r, env).ga.Up?
    ensures SendsNothingCounted(r, LightAttach(r)) && LightAttach(r).ga.Up?
  {
    IoForceAttachSends(cfg, r, env);
    LightAttachSends(r);
  }

  lemma HotkeySends(cfg: Config, c: Controller, index: nat, env: Env)
    ensures SendsWakeupIffWaking(c, GaHotkey(cfg, c, index, env))
    ensures SendsPingIffPinging(c, GaHotkey(cfg, c, index, env))
  {
    if index < |cfg.hotkeys| && cfg.hotkeys[index].action.Do? {
      match cfg.hotkeys[index].action.action
      case IoUpgrade => IoAttachSends(cfg, c, env);
      case IoEntryForced => IoForceAttachSends(cfg, c, env);
      case IoExit => IoDetachSends(cfg, c);
    }
  }

  lemma BackupSends(cfg: Config, c: Controller, existing: set<string>, leave: bool)
    ensures SendsWakeupIffWaking(c, BackupMode(cfg, c, existing, leave).0)
  {
    var disks := SnapshotDisks(cfg.snapshots, existing, leave);
    var commands := SnapshotCommands(cfg.snapshots, disks, leave, c.acks);
    NoWakeups(commands);
    WakeupsAppend(c.monitor, commands);
  }

  lemma PingSends(cfg: Config, c: Controller)
    ensures SendsWakeupIffWaking(c, GaPing(cfg, c).0) && SendsPingIffPinging(c, GaPing(cfg, c).0)
  {
    IoDetachSends(cfg, c.(ga := Down));
    PingsAppend(c.clientpipe, [Ping]);
  }

  lemma TemporaryEntrySends(c: Controller, sender: nat, x: int, y: int)
    ensures SendsWakeupIffWaking(c, TemporaryEntry(c, sender, x, y))
    ensures SendsPingIffPinging(c, TemporaryEntry(c, sender, x, y))
  {
    PingsAppend(c.clientpipe, [SetMousePosition(x, y)]);
    LightAttachSends(WriteGa(c, SetMousePosition(x, y)));
  }

  lemma StayingSends(cfg: Config, c: Controller, op: Op)
    requires op.OpSuspend? || op.OpShutdown? || op.OpBackup? || op.OpMouse? || op.OpPong? || op.OpQemuSuspended?
    ensures SendsWakeupIffWaking(c, Apply(cfg, c, op)) && SendsPingIffPinging(c, Apply(cfg, c, op))
  {
    match op
    case OpSuspend => PingsAppend(c.clientpipe, [GaCmdOut.Suspend]);
    case OpShutdown =>
      PingsAppend(c.clientpipe, [GaCmdOut.Shutdown]);
      WakeupsAppend(c.monitor, [SystemPowerdown]);
    case OpBackup(existing, leave) => BackupSends(cfg, c, existing, leave);
    case OpMouse(_, _) =>
    case OpPong =>
    case OpQemuSuspended =>
  }

  lemma ApplySends(cfg: Config, c: Controller, op: Op)
    ensures SendsWakeupIffWaking(c, Apply(cfg, c, op)) && SendsPingIffPinging(c, Apply(cfg, c, op))
  {
    match op
    case OpPing => PingSends(cfg, c);
    case OpHello(env) => HelloSends(cfg, c, env);
    case OpSuspending => IoDetachSends(cfg, c);
    case OpHotkey(index, env) => HotkeySends(cfg, c, index, env);
    case OpIoAttach(env) => IoAttachSends(cfg, c, env);
    case OpTryAttach(env) => IoForceAttachSends(cfg, c, env);
    case OpForceAttach(env) => IoForceAttachSends(cfg, c, env);
    case OpLightAttach => LightAttachSends(c);
    case OpIoDetach => IoDetachSends(cfg, c);
    case OpTemporaryEntry(sender, x, y) => TemporaryEntrySends(c, sender, x, y);
    case OpTemporaryExit => IoDetachSends(cfg, c);
    case _ => StayingSends(cfg, c, op);
  }

  // ----- the invariants -----

  // No wake-up has been sent since the machine reported suspension while it still is
  // suspended, and at most one at any time.
  ghost predicate OneWakeup(h: History) {
    && h.wakeupsBefore <= Wakeups(h.c.monitor) <= h.wakeupsBefore + 1
    && (h.c.ga.Suspended? ==> Wakeups(h.c.monitor) == h.wakeupsBefore)
  }

  // Since the latest hello or pong no ping was sent if the agent counts as up, and
  // exactly one if an answer is awaited.
  ghost predicate PingsAnswered(h: History) {
    && (h.c.ga.Up? ==> Pings(h.c.clientpipe) == h.pingsBefore)
    && (h.c.ga.Pinging? ==> Pings(h.c.clientpipe) == h.pingsBefore + 1)
  }

  // Waiters are numbered in the order of their calls; the completed ones followed by
  // the pending ones are all of them in that order; and a waiter is completed exactly
  // when the machine reported suspension after its call.
  ghost predicate WaitersConserved(h: History) {
    && h.c.completed + h.c.suspendSenders == Range(0, h.c.waiters)
    && (h.c.ga.Suspended? ==> h.c.suspendSenders == [])
    && |h.issued| == h.c.waiters
    && forall w :: 0 <= w < h.c.waiters ==>
                     h.issued[w] <= h.suspends && (w < |h.c.completed| <==> h.issued[w] < h.suspends)
  }

  // Attaching and detaching change the agent's state only by waking it up.
  predicate WakesAtMost(c: Controller, r: Controller) {
    r.ga == c.ga || (c.ga.Suspended? && r.ga.Resuming?)
  }

  lemma HotkeyWakesAtMost(cfg: Config, c: Controller, index: nat, env: Env)
    ensures WakesAtMost(c, GaHotkey(cfg, c, index, env))
  {
    assert WakesAtMost(c, IoAttach(cfg, c, env));
    assert WakesAtMost(c, IoForceAttach(cfg, c, env));
    assert WakesAtMost(c, IoDetach(cfg, c));
  }

  // Which calls change what is known of the agent, and how.
  lemma AgentMoves(cfg: Config, c: Controller, op: Op)
    ensures Apply(cfg, c, op).ga.Suspended? ==> op.OpQemuSuspended? || c.ga.Suspended?
    ensures Apply(cfg, c, op).ga.Up? ==> op.OpHello? || op.OpPong? || c.ga.Up?
    ensures Apply(cfg, c, op).ga.Pinging? ==> c.ga.Pinging? || (op.OpPing? && c.ga.Up?)
    ensures Apply(cfg, c, op).ga.Down? ==> c.ga.Down? || (op.OpPing? && c.ga.Pinging?)
    ensures op.OpHello? ==> Apply(cfg, c, op).ga.Up?
    ensures op.OpPong? ==> !Apply(cfg, c, op).ga.Pinging?
    ensures op.OpQemuSuspended? ==> Apply(cfg, c, op).ga.Suspended?
  {
    match op
    case OpHello(env) => HelloSends(cfg, c, env);
    case OpHotkey(index, env) => HotkeyWakesAtMost(cfg, c, index, env);
    case OpPing =>
    case OpPong =>
    case OpQemuSuspended =>
    case OpSuspending =>
    case _ => assert WakesAtMost(c, Apply(cfg, c, op));
  }

  predicate SameWaiters(c: Controller, r: Controller) {
    r.completed == c.completed && r.suspendSenders == c.suspendSenders && r.waiters == c.waiters
  }

  lemma HelloKeepsWaiters(cfg: Config, c: Controller, env: Env)
    ensures SameWaiters(c, GaHello(cfg, c, env).0)
  {
    assert SameWaiters(c, GreetAgent(cfg, c, env));
  }

  lemma HotkeyKeepsWaiters(cfg: Config, c: Controller, index: nat, env: Env)
    ensures SameWaiters(c, GaHotkey(cfg, c, index, env))
  {
    assert SameWaiters(c, IoAttach(cfg, c, env));
    assert SameWaiters(c, IoForceAttach(cfg, c, env));
    assert SameWaiters(c, IoDetach(cfg, c));
  }

  // Which calls change the waiters.
  lemma WaiterMoves(cfg: Config, c: Controller, op: Op)
    requires !op.OpQemuSuspended? && !(op.OpSuspend? && !c.ga.Suspended?)
    ensures SameWaiters(c, Apply(cfg, c, op))
  {
    match op
    case OpHello(env) => HelloKeepsWaiters(cfg, c, env);
    case OpHotkey(index, env) => HotkeyKeepsWaiters(cfg, c, index, env);
    case _ =>
  }

  lemma AdvanceKeepsWaiters(cfg: Config, h: History, op: Op)
    requires WaitersConserved(h)
    ensures WaitersConserved(Advance(cfg, h, op))
  {
    AgentMoves(cfg, h.c, op);
    var r := Advance(cfg, h, op);
    if op.OpQemuSuspended? {
      assert r.c.completed + r.c.suspendSenders == h.c.completed + h.c.suspendSenders;
      assert |r.c.completed| == r.c.waiters;
    } else if op.OpSuspend? && !h.c.ga.Suspended? {
      assert r.c.completed + r.c.suspendSenders == h.c.completed + h.c.suspendSenders + [h.c.waiters];
      assert |h.c.completed| + |h.c.suspendSenders| == h.c.waiters;
    } else {
      WaiterMoves(cfg, h.c, op);
    }
  }

  lemma AdvanceKeepsCounts(cfg: Config, h: History, op: Op)
    requires OneWakeup(h) && PingsAnswered(h)
    ensures OneWakeup(Advance(cfg, h, op)) && PingsAnswered(Advance(cfg, h, op))
  {
    ApplySends(cfg, h.c, op);
    AgentMoves(cfg, h.c, op);
  }

  // Histories only watch: their controller is that of the plain run.
  lemma {:induction false} HistoryIsTheRun(cfg: Config, ops: seq<Op>)
    ensures AdvanceAll(cfg, START, ops).c == ApplyAll(cfg, INITIAL, ops)
  {
    if ops != [] { HistoryIsTheRun(cfg, ops[..|ops| - 1]); }
  }

  lemma {:induction false} AlwaysCounted(cfg: Config, ops: seq<Op>)
    ensures AdvanceAll(cfg, START, ops).c == ApplyAll(cfg, INITIAL, ops)
    ensures OneWakeup(AdvanceAll(cfg, START, ops))
    ensures PingsAnswered(AdvanceAll(cfg, START, ops))
    ensures WaitersConserved(AdvanceAll(cfg, START, ops))
  {
    HistoryIsTheRun(cfg, ops);
    if ops != [] {
      AlwaysCounted(cfg, ops[..|ops| - 1]);
      var h := AdvanceAll(cfg, START, ops[..|ops| - 1]);
      AdvanceKeepsCounts(cfg, h, ops[|ops| - 1]);
      AdvanceKeepsWaiters(cfg, h, ops[|ops| - 1]);
    }
  }

  // The agent is declared down only by the timer, and only if since the latest hello
  // or pong a ping, and no second one, has been sent.
  lemma DownOnlyAfterUnansweredPing(cfg: Config, ops: seq<Op>, op: Op)
    ensures var c := ApplyAll(cfg, INITIAL, ops);
            !c.ga.Down? && Apply(cfg, c, op).ga.Down? ==>
              op.OpPing? && Pings(c.clientpipe) == AdvanceAll(cfg, START, ops).pingsBefore + 1
  {
    AlwaysCounted(cfg, ops);
    AgentMoves(cfg, AdvanceAll(cfg, START, ops).c, op);
  }

  // A waiter has been served exactly when the machine was suspended after its call.
  lemma ServedIffSuspendedSince(cfg: Config, ops: seq<Op>, w: nat)
    requires w < ApplyAll(cfg, INITIAL, ops).waiters
    ensures var c, h := ApplyAll(cfg, INITIAL, ops), AdvanceAll(cfg, START, ops);
            && |h.issued| == c.waiters
            && (w in c.completed <==> h.issued[w] < h.suspends)
            && (w in c.completed <==> w !in c.suspendSenders)
  {
    AlwaysCounted(cfg, ops);
    ServedIff(AdvanceAll(cfg, START, ops), w);
  }

  lemma ServedIff(h: History, w: nat)
    requires WaitersConserved(h) && w < h.c.waiters
    ensures w in h.c.completed <==> h.issued[w] < h.suspends
    ensures w in h.c.completed <==> w !in h.c.suspendSenders
  {
    var all := h.c.completed + h.c.suspendSenders;
    assert |all| == h.c.waiters;
    assert forall i :: 0 <= i < |all| ==> all[i] == i;
    if w < |h.c.completed| {
      assert h.c.completed[w] == all[w];
    } else {
      assert h.c.suspendSenders[w - |h.c.completed|] == all[w];
    }
    forall i | 0 <= i < |h.c.completed| ensures h.c.completed[i] == i {
      assert h.c.completed[i] == all[i];
    }
    forall i | 0 <= i < |h.c.suspendSenders| ensures h.c.suspendSenders[i] == |h.c.completed| + i {
      assert h.c.suspendSenders[i] == all[|h.c.completed| + i];
    }
  }
}
