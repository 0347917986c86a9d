/** The task that executes the monitor queue against the machine. */
module MonitorModel {
  import opened Common
  import opened Messages
  import opened Hotkeys

  // How the machine answers a command; Broken is a failing socket.
  datatype Result = Ok | Failed | Broken

  // removed: whether the snapshot file could be deleted; drained: the order in which
  // the set of held keys happens to be emptied.
  datatype Outcome = Outcome(result: Result, removed: bool, drained: seq<Qcode>)

  datatype Commit = Commit(file: string, ack: nat)

  // What became of snapshots and commits, in order.
  datatype Entry =
    | SnapshotTaken(ack: nat, disk: nat, file: string, ok: bool)
    | CommitIssued(ack: nat, disk: nat, file: string, ok: bool)
    | JobCompleted(disk: nat, ok: bool)
    | FileRemoved(file: string)

  // delivered: the input events that reached the machine; sent: the acks that were
  // answered; dropped: those that can no longer be.
  datatype Monitor = Monitor(
    held: set<Qcode>,
    pending: map<nat, Commit>,
    delivered: seq<InputEvent>,
    sent: set<nat>,
    dropped: set<nat>,
    journal: seq<Entry>,
    running: bool)

  const IDLE := Monitor({}, map[], [], {}, {}, [], true)

  function HoldKey(held: set<Qcode>, event: InputEvent): set<Qcode> {
    match event
    case Key(key, down) => if down then held + {key} else held - {key}
    case Pointer => held
  }

  function HoldKeys(held: set<Qcode>, events: seq<InputEvent>): set<Qcode> {
    if events == [] then held
    else HoldKey(HoldKeys(held, events[..|events| - 1]), events[|events| - 1])
  }

  // The keys the machine sees pressed after these events.
  function Pressed(delivered: seq<InputEvent>): set<Qcode> {
    HoldKeys({}, delivered)
  }

  function KeyUps(keys: seq<Qcode>): seq<InputEvent> {
    seq(|keys|, i requires 0 <= i < |keys| => InputEvent.Key(keys[i], false))
  }

  // The drained keys are the held ones, each once.
  ghost predicate Drains(held: set<Qcode>, drained: seq<Qcode>) {
    NoDuplicates(drained) && forall k :: k in drained <==> k in held
  }

  function DropPending(m: Monitor, disk: nat): set<nat> {
    if disk in m.pending then m.dropped + {m.pending[disk].ack} else m.dropped
  }

  function Handle(m: Monitor, cmd: QmpCommand, o: Outcome): Monitor {
    var next := m.(running := !o.result.Broken?);
    match cmd
    case InputSendEvent(events) =>
      next.(held := HoldKeys(m.held, events),
            delivered := if o.result.Ok? then m.delivered + events else m.delivered)
    case ReleaseAllKeys =>
      next.(held := {},
            delivered := if o.result.Ok? then m.delivered + KeyUps(o.drained) else m.delivered)
    case TakeSnapshot(disk, file, ack) =>
      var done := next.(journal := m.journal + [SnapshotTaken(ack, disk, file, o.result.Ok?)]);
      if o.result.Ok? then done.(sent := m.sent + {ack}) else done.(dropped := m.dropped + {ack})
    case CommitSnapshot(disk, file, ack) =>
      next.(pending := m.pending[disk := Commit(file, ack)],
            dropped := DropPending(m, disk),
            journal := m.journal + [CommitIssued(ack, disk, file, o.result.Ok?)])
    case JobReady(disk) => HandleJobReady(m, next, disk, o)
    case _ => next
  }

  // A job without a pending commit, and a file that cannot be removed, are fatal.
  function HandleJobReady(m: Monitor, next: Monitor, disk: nat, o: Outcome): Monitor {
    if disk !in m.pending then m.(running := false)
    else
      var commit := m.pending[disk];
      var taken := next.(pending := m.pending - {disk}, journal := m.journal + [JobCompleted(disk, o.result.Ok?)]);
      if !o.result.Ok? then taken.(dropped := m.dropped + {commit.ack})
      else if !o.removed then taken.(dropped := m.dropped + {commit.ack}, running := false)
      else taken.(sent := m.sent + {commit.ack}, journal := taken.journal + [FileRemoved(commit.file)])
  }

  function HandleAll(m: Monitor, cmds: seq<QmpCommand>, outcomes: seq<Outcome>): Monitor
    requires |cmds| == |outcomes|
  {
    if cmds == [] then m
    else
      var last := |cmds| - 1;
      Handle(HandleAll(m, cmds[..last], outcomes[..last]), cmds[last], outcomes[last])
  }

  // The task ends with a broken socket, a report without a commit, or a file that cannot be
  // removed once its commit is completed; and with nothing else.
  lemma EndsIff(m: Monitor, cmd: QmpCommand, o: Outcome)
    ensures !Handle(m, cmd, o).running <==>
              || o.result.Broken?
              || (cmd.JobReady? && (cmd.disk !in m.pending || (o.result.Ok? && !o.removed)))
  {
  }

  // ----- held keys and pressed keys -----

  lemma {:induction false} HoldKeysAppend(held: set<Qcode>, a: seq<InputEvent>, b: seq<InputEvent>)
    ensures HoldKeys(held, a + b) == HoldKeys(HoldKeys(held, a), b)
  {
    if b == [] {
      assert a + b == a;
    } else {
      assert (a + b)[..|a + b| - 1] == a + b[..|b| - 1];
      HoldKeysAppend(held, a, b[..|b| - 1]);
    }
  }

  lemma {:induction false} KeyUpsRelease(held: set<Qcode>, keys: seq<Qcode>)
    ensures forall k :: k in HoldKeys(held, KeyUps(keys)) <==> k in held && k !in keys
  {
    if keys != [] {
      var last := |keys| - 1;
      assert KeyUps(keys)[..last] == KeyUps(keys[..last]);
      KeyUpsRelease(held, keys[..last]);
      assert keys == keys[..last] + [keys[last]];
    }
  }

  ghost predicate AllSucceed(m: Monitor, cmds: seq<QmpCommand>, outcomes: seq<Outcome>)
    requires |cmds| == |outcomes|
  {
    forall i :: 0 <= i < |cmds| ==>
                  && outcomes[i].result.Ok?
                  && (cmds[i].ReleaseAllKeys? ==>
                        Drains(HandleAll(m, cmds[..i], outcomes[..i]).held, outcomes[i].drained))
  }

  // While the machine executes everything, the keys the driver believes held are those
  // the machine sees pressed; releasing all keys empties both.
  lemma {:induction false} HeldKeysArePressed(m: Monitor, cmds: seq<QmpCommand>, outcomes: seq<Outcome>)
    requires |cmds| == |outcomes| && AllSucceed(m, cmds, outcomes)
    requires m.held == Pressed(m.delivered)
    ensures HandleAll(m, cmds, outcomes).held == Pressed(HandleAll(m, cmds, outcomes).delivered)
    ensures cmds != [] && cmds[|cmds| - 1].ReleaseAllKeys? ==> Pressed(HandleAll(m, cmds, outcomes).delivered) == {}
  {
    if cmds != [] {
      var last := |cmds| - 1;
      assert AllSucceed(m, cmds[..last], outcomes[..last]) by {
        forall i | 0 <= i < last
          ensures cmds[..last][..i] == cmds[..i] && outcomes[..last][..i] == outcomes[..i]
        {
        }
      }
      HeldKeysArePressed(m, cmds[..last], outcomes[..last]);
      var before := HandleAll(m, cmds[..last], outcomes[..last]);
      match cmds[last]
      case InputSendEvent(events) => HoldKeysAppend({}, before.delivered, events);
      case ReleaseAllKeys =>
        var drained := outcomes[last].drained;
        HoldKeysAppend({}, before.delivered, KeyUps(drained));
        KeyUpsRelease(before.held, drained);
      case JobReady(_) =>
      case _ =>
    }
  }
}
