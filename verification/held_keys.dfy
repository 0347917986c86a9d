/** Keys held in the machine: forwarded in the light states, released when these end. */
module HeldKeys {
  import opened Messages
  import opened ControllerModel
  import opened MonitorModel
  import opened Entries
  import Hotkeys
  import Ownership
  import Backup
  import Usb

  // ----- what a queue leaves held -----

  function HeldBy(cmd: QmpCommand, held: set<Hotkeys.Qcode>): set<Hotkeys.Qcode> {
    match cmd
    case InputSendEvent(events) => HoldKeys(held, events)
    case ReleaseAllKeys => {}
    case _ => held
  }

  function HeldAfter(queue: seq<QmpCommand>): set<Hotkeys.Qcode> {
    if queue == [] then {}
    else HeldBy(queue[|queue| - 1], HeldAfter(queue[..|queue| - 1]))
  }

  lemma {:induction false} HeldIsQueue(queue: seq<QmpCommand>, outcomes: seq<Outcome>)
    requires |outcomes| == |queue|
    ensures HandleAll(IDLE, queue, outcomes).held == HeldAfter(queue)
  {
    if queue != [] {
      var last := |queue| - 1;
      HeldIsQueue(queue[..last], outcomes[..last]);
    }
  }

  lemma HeldAppend(queue: seq<QmpCommand>, cmd: QmpCommand)
    ensures HeldAfter(queue + [cmd]) == HeldBy(cmd, HeldAfter(queue))
  {
    assert (queue + [cmd])[..|queue|] == queue;
  }

  // ----- what calls add -----

  ghost predicate AddsNoInput(c: Controller, r: Controller) {
    && c.monitor <= r.monitor
    && forall i :: |c.monitor| <= i < |r.monitor| ==> !r.monitor[i].InputSendEvent?
  }

  lemma ApplyAddsNoInput(cfg: Config, c: Controller, op: Op)
    ensures AddsNoInput(c, Apply(cfg, c, op))
  {
    if op.OpBackup? {
      var disks := SnapshotDisks(cfg.snapshots, op.existing, op.leave);
      var commands := SnapshotCommands(cfg.snapshots, disks, op.leave, c.acks);
      assert forall i :: 0 <= i < |commands| ==> commands[i].CommitSnapshot? || commands[i].TakeSnapshot?;
    } else {
      Backup.ApplyAddsPlain(cfg, c, op);
    }
  }

  // Without input, a queue can only grow by releases.
  lemma {:induction false} HeldWithoutInput(queue: seq<QmpCommand>, longer: seq<QmpCommand>)
    requires queue <= longer && forall i :: |queue| <= i < |longer| ==> !longer[i].InputSendEvent?
    ensures HeldAfter(longer) == HeldAfter(queue) || HeldAfter(longer) == {}
    ensures (forall i :: |queue| <= i < |longer| ==> !longer[i].ReleaseAllKeys?) ==>
              HeldAfter(longer) == HeldAfter(queue)
    ensures |queue| < |longer| && longer[|queue|] == ReleaseAllKeys ==> HeldAfter(longer) == {}
    decreases |longer|
  {
    if |queue| == |longer| {
      assert queue == longer;
    } else {
      HeldWithoutInput(queue, longer[..|longer| - 1]);
    }
  }

  // ----- runs with forwarded input -----

  datatype Event = Call(op: Op) | Forward(events: seq<InputEvent>)

  function Step(cfg: Config, c: Controller, e: Event): Controller {
    match e
    case Call(op) => Apply(cfg, c, op)
    case Forward(events) => SendMonitor(c, InputSendEvent(events))
  }

  function RunFrom(cfg: Config, c: Controller, events: seq<Event>): Controller {
    if events == [] then c
    else Step(cfg, RunFrom(cfg, c, events[..|events| - 1]), events[|events| - 1])
  }

  function Run(cfg: Config, events: seq<Event>): Controller {
    RunFrom(cfg, INITIAL, events)
  }

  // Outside the light states the queue leaves no key held.
  predicate NoneHeld(c: Controller) {
    !Ownership.IsLight(c.io) ==> HeldAfter(c.monitor) == {}
  }

  // The calls that replace a temporary entry by a full one.
  predicate FillsTemporaryEntry(c: Controller, op: Op) {
    && c.io.TemporaryLightEntry?
    && match op
       case OpForceAttach(_) => true
       case OpIoAttach(_) => c.ga.Up? || c.ga.Pinging?
       case OpTryAttach(_) => c.ga.Up? || c.ga.Pinging?
       case OpHello(_) => c.ga == Resuming(true)
       case _ => false
  }

  // What leaves a key held: replacing a temporary entry in which one is held, or
  // forwarding a press outside the light states.
  predicate LeavesKeysHeld(c: Controller, e: Event) {
    match e
    case Call(op) => FillsTemporaryEntry(c, op) && HeldAfter(c.monitor) != {}
    case Forward(events) => !Ownership.IsLight(c.io) && HoldKeys({}, events) != {}
  }

  lemma FillsIff(cfg: Config, c: Controller, op: Op)
    ensures c.io.TemporaryLightEntry? && Apply(cfg, c, op).io.FullEntry? <==> FillsTemporaryEntry(c, op)
  {
    if op.OpHello? { HelloAttachesOnce(cfg, c, op.env); }
  }

  // Filling a temporary entry sends DeviceAdds only.
  lemma FillingKeepsKeys(cfg: Config, c: Controller, op: Op)
    requires FillsTemporaryEntry(c, op)
    ensures Apply(cfg, c, op).io.FullEntry?
    ensures HeldAfter(Apply(cfg, c, op).monitor) == HeldAfter(c.monitor)
  {
    if op.OpHello? { HelloAttachesOnce(cfg, c, op.env); }
    AddsAreAdds(cfg.usb, op.env.usb, Usb.SortByBus(cfg.usb));
    var r := Apply(cfg, c, op);
    assert r.monitor == c.monitor + HotplugAdds(cfg.usb, op.env.usb, Usb.SortByBus(cfg.usb));
    HeldWithoutInput(c.monitor, r.monitor);
  }

  lemma CallKeepsNoneHeld(cfg: Config, c: Controller, op: Op)
    requires NoneHeld(c)
    ensures NoneHeld(Apply(cfg, c, op)) <==> !LeavesKeysHeld(c, Call(op))
  {
    if FillsTemporaryEntry(c, op) {
      FillingKeepsKeys(cfg, c, op);
    } else {
      FillsIff(cfg, c, op);
      ApplyReleases(cfg, c, op);
      ApplyAddsNoInput(cfg, c, op);
      HeldWithoutInput(c.monitor, Apply(cfg, c, op).monitor);
    }
  }

  // A step keeps the machine free of held keys exactly when it is neither of these.
  lemma StepKeepsNoneHeld(cfg: Config, c: Controller, e: Event)
    requires NoneHeld(c)
    ensures NoneHeld(Step(cfg, c, e)) <==> !LeavesKeysHeld(c, e)
  {
    match e
    case Call(op) => CallKeepsNoneHeld(cfg, c, op);
    case Forward(events) => HeldAppend(c.monitor, InputSendEvent(events));
  }

  lemma {:induction false} NoneHeldUnlessLeft(cfg: Config, events: seq<Event>)
    requires forall i :: 0 <= i < |events| ==> !LeavesKeysHeld(Run(cfg, events[..i]), events[i])
    ensures NoneHeld(Run(cfg, events))
  {
    if events != [] {
      var n := |events| - 1;
      forall i | 0 <= i < n ensures !LeavesKeysHeld(Run(cfg, events[..n][..i]), events[..n][i]) {
        assert events[..n][..i] == events[..i];
      }
      NoneHeldUnlessLeft(cfg, events[..n]);
      StepKeepsNoneHeld(cfg, Run(cfg, events[..n]), events[n]);
    }
  }

  // Once the machine has executed such a queue and the driver is in no light state, the
  // machine sees no key pressed and the driver believes none held.
  lemma ExecutedLeavesNone(c: Controller, outcomes: seq<Outcome>)
    requires NoneHeld(c) && !Ownership.IsLight(c.io)
    requires |outcomes| == |c.monitor| && AllSucceed(IDLE, c.monitor, outcomes)
    ensures var m := HandleAll(IDLE, c.monitor, outcomes);
            m.held == {} && Pressed(m.delivered) == {}
  {
    HeldIsQueue(c.monitor, outcomes);
    HeldKeysArePressed(IDLE, c.monitor, outcomes);
  }

  lemma NoKeyStaysPressed(cfg: Config, events: seq<Event>, outcomes: seq<Outcome>)
    requires forall i :: 0 <= i < |events| ==> !LeavesKeysHeld(Run(cfg, events[..i]), events[i])
    requires |outcomes| == |Run(cfg, events).monitor| && AllSucceed(IDLE, Run(cfg, events).monitor, outcomes)
    requires !Ownership.IsLight(Run(cfg, events).io)
    ensures var m := HandleAll(IDLE, Run(cfg, events).monitor, outcomes);
            m.held == {} && Pressed(m.delivered) == {}
  {
    NoneHeldUnlessLeft(cfg, events);
    ExecutedLeavesNone(Run(cfg, events), outcomes);
  }

  const BARE := Config([], [], [])
  const NOTHING := Env(map[], {})

  // A temporary entry, a key pressed in it and a forced entry leave the key held.
  lemma KeysCanStayHeld()
    ensures var up := Step(BARE, INITIAL, Call(OpHello(NOTHING)));
            var entered := Step(BARE, up, Call(OpTemporaryEntry(1, 0, 0)));
            var pressed := Step(BARE, entered, Forward([InputEvent.Key("a", true)]));
            var full := Step(BARE, pressed, Call(OpForceAttach(NOTHING)));
            && entered.io.TemporaryLightEntry? && full.io.FullEntry?
            && HeldAfter(full.monitor) == {"a"}
  {
    var up := Step(BARE, INITIAL, Call(OpHello(NOTHING)));
    var entered := Step(BARE, up, Call(OpTemporaryEntry(1, 0, 0)));
    var pressed := Step(BARE, entered, Forward([InputEvent.Key("a", true)]));
    assert entered.monitor == [];
    HeldAppend([], InputSendEvent([InputEvent.Key("a", true)]));
    assert [] + [InputSendEvent([InputEvent.Key("a", true)])] == pressed.monitor;
    assert HoldKeys({}, [InputEvent.Key("a", true)]) == {"a"};
    FillingKeepsKeys(BARE, pressed, OpForceAttach(NOTHING));
  }
}
