/** Who holds the devices: the host's light entry, the machine, or nobody. */
module Ownership {
  import opened Usb
  import opened Messages
  import opened ControllerModel

  // The states in which the host forwards its input devices.
  predicate IsLight(io: IoState) {
    io.LightEntry? || io.TemporaryLightEntry? || io.AwaitingUpgrade?
  }

  // Which entry states go with which states of the guest agent.
  predicate Consistent(c: Controller) {
    && (c.ga.Up? || c.ga.Pinging? ==> !c.io.AwaitingUpgrade?)
    && (c.ga.Down? ==> !c.io.TemporaryLightEntry?)
    && (c.ga.Suspending? ==> c.io.Detached? || c.io.FullEntry?)
  }

  // Input is grabbed only in a light state, and never twice in a row.
  ghost predicate GrabsAreSane(c: Controller) {
    && (Grabbed(c.input) ==> IsLight(c.io))
    && NoDoubleGrab(c.input)
  }

  // ----- the queues, one append at a time -----

  lemma AppendCommand(queue: seq<QmpCommand>, cmd: QmpCommand)
    requires NoDoubleAdd(queue) && (cmd.DeviceAdd? ==> cmd.id !in Plugged(queue))
    ensures NoDoubleAdd(queue + [cmd])
  {
    var r := queue + [cmd];
    forall i | 0 <= i < |r| && r[i].DeviceAdd? ensures r[i].id !in Plugged(r[..i]) {
      assert r[..i] == queue[..i];
      assert queue[..|queue|] == queue;
    }
  }

  lemma PluggedAppend(queue: seq<QmpCommand>, cmd: QmpCommand)
    ensures Plugged(queue + [cmd]) == PluggedBy(cmd, Plugged(queue))
  {
    assert (queue + [cmd])[..|queue|] == queue;
  }

  lemma {:induction false} PluggedNeutral(queue: seq<QmpCommand>, more: seq<QmpCommand>)
    requires forall i :: 0 <= i < |more| ==> !TouchesUsb(more[i])
    ensures Plugged(queue + more) == Plugged(queue)
    ensures NoDoubleAdd(queue) ==> NoDoubleAdd(queue + more)
  {
    if more == [] {
      assert queue + more == queue;
    } else {
      var last := |more| - 1;
      PluggedNeutral(queue, more[..last]);
      assert queue + more == (queue + more[..last]) + [more[last]];
      PluggedAppend(queue + more[..last], more[last]);
      if NoDoubleAdd(queue) {
        AppendCommand(queue + more[..last], more[last]);
      }
    }
  }

  ghost predicate IsHotplugged(devices: seq<UsbDevice>, id: nat) {
    id < |devices| && !devices[id].permanent
  }

  // The ids that an attach adds.
  function AddedIds(devices: seq<UsbDevice>, usb: Resolution, order: seq<nat>): set<nat>
    requires forall p :: 0 <= p < |order| ==> order[p] < |devices|
  {
    if order == [] then {}
    else
      var k := order[|order| - 1];
      AddedIds(devices, usb, order[..|order| - 1]) + (if !devices[k].permanent && k in usb then {k} else {})
  }

  lemma {:induction false} AddedIdsAre(devices: seq<UsbDevice>, usb: Resolution, order: seq<nat>, id: nat)
    requires forall p :: 0 <= p < |order| ==> order[p] < |devices|
    ensures id in AddedIds(devices, usb, order) <==> id in order && IsHotplugged(devices, id) && id in usb
  {
    if order != [] {
      var last := |order| - 1;
      AddedIdsAre(devices, usb, order[..last], id);
      assert order == order[..last] + [order[last]];
    }
  }

  // Attaching from nothing plugs exactly these.
  lemma {:induction false} PluggedByAttach(
    queue: seq<QmpCommand>, devices: seq<UsbDevice>, usb: Resolution, order: seq<nat>)
    requires Ascending(devices, order)
    requires Plugged(queue) == {} && NoDoubleAdd(queue)
    ensures NoDoubleAdd(queue + HotplugAdds(devices, usb, order))
    ensures Plugged(queue + HotplugAdds(devices, usb, order)) == AddedIds(devices, usb, order)
  {
    if order == [] {
      assert queue + HotplugAdds(devices, usb, order) == queue;
    } else {
      var init := order[..|order| - 1];
      PluggedByAttach(queue, devices, usb, init);
      LastIsNew(devices, usb, order);
      PluggedByLast(queue + HotplugAdds(devices, usb, init), devices, usb, order);
      AddsEndWithLast(queue, devices, usb, order);
    }
  }

  lemma AddsEndWithLast(queue: seq<QmpCommand>, devices: seq<UsbDevice>, usb: Resolution, order: seq<nat>)
    requires order != [] && forall p :: 0 <= p < |order| ==> order[p] < |devices|
    ensures queue + HotplugAdds(devices, usb, order) ==
            queue + HotplugAdds(devices, usb, order[..|order| - 1]) + LastAdd(devices, usb, order)
  {
  }

  function LastAdd(devices: seq<UsbDevice>, usb: Resolution, order: seq<nat>): seq<QmpCommand>
    requires order != [] && order[|order| - 1] < |devices|
  {
    var k := order[|order| - 1];
    if !devices[k].permanent && k in usb then [DeviceAdd(k, SlotOf(devices, k), usb[k])] else []
  }

  lemma PluggedByLast(before: seq<QmpCommand>, devices: seq<UsbDevice>, usb: Resolution, order: seq<nat>)
    requires order != [] && forall p :: 0 <= p < |order| ==> order[p] < |devices|
    requires NoDoubleAdd(before) && Plugged(before) == AddedIds(devices, usb, order[..|order| - 1])
    requires order[|order| - 1] !in Plugged(before)
    ensures NoDoubleAdd(before + LastAdd(devices, usb, order))
    ensures Plugged(before + LastAdd(devices, usb, order)) == AddedIds(devices, usb, order)
  {
    var k := order[|order| - 1];
    if !devices[k].permanent && k in usb {
      var cmd := DeviceAdd(k, SlotOf(devices, k), usb[k]);
      PluggedAppend(before, cmd);
      AppendCommand(before, cmd);
    } else {
      assert before + LastAdd(devices, usb, order) == before;
    }
  }

  lemma LastIsNew(devices: seq<UsbDevice>, usb: Resolution, order: seq<nat>)
    requires Ascending(devices, order) && order != []
    ensures order[|order| - 1] !in AddedIds(devices, usb, order[..|order| - 1])
  {
    var last := |order| - 1;
    assert forall p :: 0 <= p < last ==> Before(devices, order[p], order[last]);
    AddedIdsAre(devices, usb, order[..last], order[last]);
  }

  // Detaching unplugs every device that an attach may have plugged.
  lemma {:induction false} UnpluggedByDetach(queue: seq<QmpCommand>, devices: seq<UsbDevice>)
    requires NoDoubleAdd(queue)
    ensures NoDoubleAdd(queue + DetachDels(devices))
    ensures forall id :: id in Plugged(queue + DetachDels(devices)) <==>
                         id in Plugged(queue) && !IsHotplugged(devices, id)
  {
    if devices == [] {
      assert queue + DetachDels(devices) == queue;
    } else {
      var last := |devices| - 1;
      var before := queue + DetachDels(devices[..last]);
      UnpluggedByDetach(queue, devices[..last]);
      if !devices[last].permanent {
        assert queue + DetachDels(devices) == before + [DeviceDel(last)];
        PluggedAppend(before, DeviceDel(last));
        AppendCommand(before, DeviceDel(last));
      } else {
        assert queue + DetachDels(devices) == before;
      }
    }
  }

  lemma AppendInputCall(input: seq<InputCall>, call: InputCall)
    requires NoDoubleGrab(input) && (call.Resume? ==> !Grabbed(input))
    ensures NoDoubleGrab(input + [call])
    ensures Grabbed(input + [call]) <==> call.Resume?
  {
  }

  // ----- without any exclusion -----

  lemma LightAttachSane(c: Controller)
    requires GrabsAreSane(c)
    ensures GrabsAreSane(LightAttach(c))
    ensures Consistent(c) ==> Consistent(LightAttach(c))
  {
    if c.io.Detached? { AppendInputCall(c.input, Resume); }
  }

  lemma IoForceAttachSane(cfg: Config, c: Controller, env: Env)
    requires GrabsAreSane(c)
    ensures GrabsAreSane(IoForceAttach(cfg, c, env))
    ensures Consistent(c) ==> Consistent(IoForceAttach(cfg, c, env))
  {
    AppendInputCall(c.input, Release);
  }

  lemma IoAttachSane(cfg: Config, c: Controller, env: Env)
    requires GrabsAreSane(c)
    ensures GrabsAreSane(IoAttach(cfg, c, env))
    ensures Consistent(c) ==> Consistent(IoAttach(cfg, c, env))
  {
    LightAttachSane(c);
    IoForceAttachSane(cfg, c, env);
  }

  lemma IoDetachSane(cfg: Config, c: Controller)
    requires GrabsAreSane(c)
    ensures GrabsAreSane(IoDetach(cfg, c))
    ensures Consistent(c) ==> Consistent(IoDetach(cfg, c))
  {
    AppendInputCall(c.input, Release);
  }

  lemma HotkeySane(cfg: Config, c: Controller, index: nat, env: Env)
    requires GrabsAreSane(c) && Consistent(c)
    ensures GrabsAreSane(GaHotkey(cfg, c, index, env)) && Consistent(GaHotkey(cfg, c, index, env))
  {
    IoAttachSane(cfg, c, env);
    IoForceAttachSane(cfg, c, env);
    IoDetachSane(cfg, c);
  }

  lemma DetachingSane(cfg: Config, c: Controller)
    requires GrabsAreSane(c) && Consistent(c)
    ensures GrabsAreSane(GaPing(cfg, c).0) && Consistent(GaPing(cfg, c).0)
    ensures GrabsAreSane(GaSuspending(cfg, c)) && Consistent(GaSuspending(cfg, c))
    ensures GrabsAreSane(TemporaryExit(cfg, c)) && Consistent(TemporaryExit(cfg, c))
  {
    IoDetachSane(cfg, c.(ga := Down));
    IoDetachSane(cfg, c);
  }

  // Every call of the interface keeps both, in every state.
  lemma ApplySane(cfg: Config, c: Controller, op: Op)
    requires GrabsAreSane(c) && Consistent(c)
    ensures GrabsAreSane(Apply(cfg, c, op)) && Consistent(Apply(cfg, c, op))
  {
    match op
    case OpHello(env) => HelloSane(cfg, c, env);
    case OpHotkey(index, env) => HotkeySane(cfg, c, index, env);
    case OpIoAttach(env) => IoAttachSane(cfg, c, env);
    case OpTryAttach(env) => IoForceAttachSane(cfg, c, env);
    case OpForceAttach(env) => IoForceAttachSane(cfg, c, env);
    case OpLightAttach => LightAttachSane(c);
    case OpPing => DetachingSane(cfg, c);
    case OpSuspending => DetachingSane(cfg, c);
    case OpIoDetach => IoDetachSane(cfg, c);
    case OpTemporaryEntry(_, x, y) => LightAttachSane(WriteGa(c, SetMousePosition(x, y)));
    case OpTemporaryExit => DetachingSane(cfg, c);
    case _ =>
  }

  lemma GreetAgentSane(cfg: Config, c: Controller, env: Env)
    requires GrabsAreSane(c)
    ensures GrabsAreSane(GreetAgent(cfg, c, env)) && Consistent(GreetAgent(cfg, c, env))
  {
    var up := c.(clientpipe := c.clientpipe + Registrations(cfg.hotkeys), ga := Up);
    assert GrabsAreSane(up);
    if up.io.AwaitingUpgrade? { IoForceAttachSane(cfg, up, env); }
  }

  lemma HelloSane(cfg: Config, c: Controller, env: Env)
    requires GrabsAreSane(c)
    ensures GrabsAreSane(GaHello(cfg, c, env).0) && Consistent(GaHello(cfg, c, env).0)
  {
    GreetAgentSane(cfg, c, env);
    var r := GreetAgent(cfg, c, env);
    if c.ga.Resuming? {
      if c.ga.full { IoForceAttachSane(cfg, r, env); } else { LightAttachSane(r); }
    }
  }

  // Whatever happens, input is grabbed only in a light state and never grabbed twice.
  lemma {:induction false} AlwaysSane(cfg: Config, ops: seq<Op>)
    ensures GrabsAreSane(ApplyAll(cfg, INITIAL, ops)) && Consistent(ApplyAll(cfg, INITIAL, ops))
  {
    if ops != [] {
      AlwaysSane(cfg, ops[..|ops| - 1]);
      ApplySane(cfg, ApplyAll(cfg, INITIAL, ops[..|ops| - 1]), ops[|ops| - 1]);
    }
  }

  // ----- exclusive ownership -----

  // Input is grabbed exactly in the light states; devices are plugged only in full
  // entry, only those the driver may plug, and none twice.
  ghost predicate Exclusive(cfg: Config, c: Controller) {
    && (Grabbed(c.input) <==> IsLight(c.io))
    && NoDoubleGrab(c.input)
    && (forall id :: id in Plugged(c.monitor) ==> c.io.FullEntry? && IsHotplugged(cfg.usb, id))
    && NoDoubleAdd(c.monitor)
  }

  // The one call that breaks it: an upgrade while the agent is down but the devices
  // are already in the machine.
  predicate LosesDevices(cfg: Config, c: Controller, op: Op) {
    && c.ga.Down? && c.io.FullEntry?
    && (|| op.OpIoAttach?
        || (op.OpHotkey? && op.index < |cfg.hotkeys|
            && cfg.hotkeys[op.index].action == HotKeyAction.Do(IoUpgrade)))
  }

  lemma UntouchedExclusive(cfg: Config, c: Controller, r: Controller)
    requires Exclusive(cfg, c) && r.input == c.input && r.monitor == c.monitor
    requires r.io == c.io || (IsLight(r.io) && IsLight(c.io))
    ensures Exclusive(cfg, r)
  {
  }

  lemma LightAttachExclusive(cfg: Config, c: Controller)
    requires Exclusive(cfg, c)
    ensures Exclusive(cfg, LightAttach(c))
  {
    if c.ga.Suspended? {
      PluggedNeutral(c.monitor, [SystemWakeup]);
    } else if c.io.Detached? {
      AppendInputCall(c.input, Resume);
    } else if c.io.AwaitingUpgrade? && !c.ga.Suspending? {
      UntouchedExclusive(cfg, c, c.(io := IoState.LightEntry));
    }
  }

  lemma IoForceAttachExclusive(cfg: Config, c: Controller, env: Env)
    requires Exclusive(cfg, c)
    ensures Exclusive(cfg, IoForceAttach(cfg, c, env))
    ensures !c.io.FullEntry? ==> forall id :: id in Plugged(IoForceAttach(cfg, c, env).monitor) <==>
                                              IsHotplugged(cfg.usb, id) && id in env.usb
  {
    if !c.io.FullEntry? {
      AppendInputCall(c.input, Release);
      PluggedNeutral(c.monitor, [ReleaseAllKeys]);
      assert Plugged(ReleaseLight(c).monitor) == {};
      var order := SortByBus(cfg.usb);
      PluggedByAttach(ReleaseLight(c).monitor, cfg.usb, env.usb, order);
      forall id: nat ensures id in AddedIds(cfg.usb, env.usb, order) <==> IsHotplugged(cfg.usb, id) && id in env.usb {
        AddedIdsAre(cfg.usb, env.usb, order, id);
      }
    }
  }

  lemma IoDetachExclusive(cfg: Config, c: Controller)
    requires Exclusive(cfg, c)
    ensures Exclusive(cfg, IoDetach(cfg, c))
    ensures Plugged(IoDetach(cfg, c).monitor) == {} && !Grabbed(IoDetach(cfg, c).input)
  {
    AppendInputCall(c.input, Release);
    PluggedNeutral(c.monitor, [ReleaseAllKeys]);
    UnpluggedByDetach(c.monitor, cfg.usb);
  }

  lemma IoAttachExclusive(cfg: Config, c: Controller, env: Env)
    requires Exclusive(cfg, c)
    ensures Exclusive(cfg, IoAttach(cfg, c, env)) <==> !(c.ga.Down? && c.io.FullEntry?)
  {
    match c.ga
    case Suspended => PluggedNeutral(c.monitor, [SystemWakeup]);
    case Down => LightAttachExclusive(cfg, c);
    case Resuming(_) =>
    case Suspending =>
    case _ => IoForceAttachExclusive(cfg, c, env);
  }

  lemma HotkeyExclusive(cfg: Config, c: Controller, index: nat, env: Env)
    requires Exclusive(cfg, c)
    ensures Exclusive(cfg, GaHotkey(cfg, c, index, env)) <==> !LosesDevices(cfg, c, OpHotkey(index, env))
  {
    if index < |cfg.hotkeys| && cfg.hotkeys[index].action.Do? && !c.io.TemporaryLightEntry? {
      match cfg.hotkeys[index].action.action
      case IoUpgrade => IoAttachExclusive(cfg, c, env);
      case IoEntryForced => IoForceAttachExclusive(cfg, c, env);
      case IoExit => IoDetachExclusive(cfg, c);
    }
  }

  lemma BackupExclusive(cfg: Config, c: Controller, existing: set<string>, leave: bool)
    requires Exclusive(cfg, c)
    ensures Exclusive(cfg, BackupMode(cfg, c, existing, leave).0)
  {
    var disks := SnapshotDisks(cfg.snapshots, existing, leave);
    PluggedNeutral(c.monitor, SnapshotCommands(cfg.snapshots, disks, leave, c.acks));
  }

  // Leaving a light entry by any of the calls that only detach.
  lemma DetachingExclusive(cfg: Config, c: Controller)
    requires Exclusive(cfg, c)
    ensures Exclusive(cfg, GaPing(cfg, c).0)
    ensures Exclusive(cfg, GaSuspending(cfg, c))
    ensures Exclusive(cfg, TemporaryExit(cfg, c))
  {
    IoDetachExclusive(cfg, c.(ga := Down));
    IoDetachExclusive(cfg, c);
  }

  lemma TemporaryEntryExclusive(cfg: Config, c: Controller, sender: nat, x: int, y: int)
    requires Exclusive(cfg, c)
    ensures Exclusive(cfg, TemporaryEntry(c, sender, x, y))
  {
    LightAttachExclusive(cfg, WriteGa(c, SetMousePosition(x, y)));
  }

  lemma EnteringExclusive(cfg: Config, c: Controller, op: Op)
    requires Exclusive(cfg, c)
    requires Enters(op)
    ensures Exclusive(cfg, Apply(cfg, c, op))
  {
    match op
    case OpTryAttach(env) => IoForceAttachExclusive(cfg, c, env);
    case OpForceAttach(env) => IoForceAttachExclusive(cfg, c, env);
    case OpLightAttach => LightAttachExclusive(cfg, c);
    case OpTemporaryEntry(sender, x, y) => TemporaryEntryExclusive(cfg, c, sender, x, y);
    case OpHello(env) => HelloExclusive(cfg, c, env);
  }

  predicate Enters(op: Op) {
    op.OpTryAttach? || op.OpForceAttach? || op.OpLightAttach? || op.OpTemporaryEntry? || op.OpHello?
  }

  predicate Leaves(op: Op) {
    op.OpPing? || op.OpSuspending? || op.OpTemporaryExit? || op.OpIoDetach?
  }

  lemma LeavingExclusive(cfg: Config, c: Controller, op: Op)
    requires Exclusive(cfg, c) && Leaves(op)
    ensures Exclusive(cfg, Apply(cfg, c, op))
  {
    DetachingExclusive(cfg, c);
    IoDetachExclusive(cfg, c);
  }

  lemma StayingExclusive(cfg: Config, c: Controller, op: Op)
    requires Exclusive(cfg, c) && !Enters(op) && !Leaves(op) && !op.OpHotkey? && !op.OpIoAttach?
    ensures Exclusive(cfg, Apply(cfg, c, op))
  {
    if op.OpBackup? {
      BackupExclusive(cfg, c, op.existing, op.leave);
    } else if op.OpShutdown? {
      ShutdownExclusive(cfg, c);
    } else {
      UntouchedExclusive(cfg, c, Apply(cfg, c, op));
    }
  }

  lemma ShutdownExclusive(cfg: Config, c: Controller)
    requires Exclusive(cfg, c)
    ensures Exclusive(cfg, ShutdownMachine(c))
  {
    PluggedNeutral(c.monitor, [SystemPowerdown]);
  }

  // A call keeps exclusive ownership exactly when it is not that one.
  lemma ApplyKeepsExclusive(cfg: Config, c: Controller, op: Op)
    requires Exclusive(cfg, c)
    ensures Exclusive(cfg, Apply(cfg, c, op)) <==> !LosesDevices(cfg, c, op)
  {
    if op.OpHotkey? {
      HotkeyExclusive(cfg, c, op.index, op.env);
    } else if op.OpIoAttach? {
      IoAttachExclusive(cfg, c, op.env);
    } else if Enters(op) {
      EnteringExclusive(cfg, c, op);
    } else if Leaves(op) {
      LeavingExclusive(cfg, c, op);
    } else {
      StayingExclusive(cfg, c, op);
    }
  }

  lemma GreetAgentExclusive(cfg: Config, c: Controller, env: Env)
    requires Exclusive(cfg, c)
    ensures Exclusive(cfg, GreetAgent(cfg, c, env))
  {
    var up := c.(clientpipe := c.clientpipe + Registrations(cfg.hotkeys), ga := Up);
    assert Exclusive(cfg, up);
    if up.io.AwaitingUpgrade? { IoAttachExclusive(cfg, up, env); }
  }

  lemma HelloExclusive(cfg: Config, c: Controller, env: Env)
    requires Exclusive(cfg, c)
    ensures Exclusive(cfg, GaHello(cfg, c, env).0)
  {
    GreetAgentExclusive(cfg, c, env);
    var r := GreetAgent(cfg, c, env);
    if c.ga.Resuming? {
      if c.ga.full { IoForceAttachExclusive(cfg, r, env); } else { LightAttachExclusive(cfg, r); }
    }
  }

  ghost predicate NeverLosesDevices(cfg: Config, ops: seq<Op>) {
    forall i :: 0 <= i < |ops| ==> !LosesDevices(cfg, ApplyAll(cfg, INITIAL, ops[..i]), ops[i])
  }

  // Over every run without that call, ownership is exclusive.
  lemma {:induction false} AlwaysExclusive(cfg: Config, ops: seq<Op>)
    requires NeverLosesDevices(cfg, ops)
    ensures Exclusive(cfg, ApplyAll(cfg, INITIAL, ops))
  {
    if ops != [] {
      var n := |ops| - 1;
      forall i | 0 <= i < n ensures !LosesDevices(cfg, ApplyAll(cfg, INITIAL, ops[..n][..i]), ops[..n][i]) {
        assert ops[..n][..i] == ops[..i];
      }
      AlwaysExclusive(cfg, ops[..n]);
      ApplyKeepsExclusive(cfg, ApplyAll(cfg, INITIAL, ops[..n]), ops[n]);
    }
  }

  // One device that the driver may plug, present on the host.
  const ONE_DEVICE := Config([UsbDevice(false, Xhci)], [], [])
  const PRESENT := Env(map[0 := HostAddress(1, 1)], {})
  const ADD_DEVICE := DeviceAdd(0, SlotAt(Xhci, 0), HostAddress(1, 1))

  lemma OneDeviceIsSorted()
    ensures SortByBus(ONE_DEVICE.usb) == [0]
  {
    assert SortPrefix(ONE_DEVICE.usb, 0) == [];
    assert SortPrefix(ONE_DEVICE.usb, 1) == InsertLast(ONE_DEVICE.usb, [], 0);
  }

  lemma OneDeviceIsAdded()
    ensures HotplugAdds(ONE_DEVICE.usb, PRESENT.usb, SortByBus(ONE_DEVICE.usb)) == [ADD_DEVICE]
  {
    OneDeviceIsSorted();
    var devices := ONE_DEVICE.usb;
    var order: seq<nat> := [0];
    assert order[..0] == [] && devices[..0] == [];
    assert HotplugAdds(devices, PRESENT.usb, []) == [];
    assert Rank(devices, 0) == 0;
  }

  // The device stays in the machine although the driver is on its way to a light entry.
  const LOST := Controller(Down, AwaitingUpgrade, [], 0, [], [Release], [ADD_DEVICE], [ReleaseModifiers], [], 0)

  lemma RunToLost()
    ensures Apply(ONE_DEVICE, Apply(ONE_DEVICE, INITIAL, OpForceAttach(PRESENT)), OpIoAttach(PRESENT)) == LOST
  {
    OneDeviceIsAdded();
    assert IoForceAttach(ONE_DEVICE, INITIAL, PRESENT) == LOST.(io := FullEntry);
  }

  lemma RunFromLost()
    ensures Apply(ONE_DEVICE, LOST, OpHello(PRESENT)).monitor == [ADD_DEVICE, ReleaseAllKeys, ADD_DEVICE]
  {
    OneDeviceIsAdded();
  }

  // A short run with that call: a forced entry while the agent is down, an ordinary
  // entry, and the agent's hello plug the same device twice.
  lemma DevicesCanBeLost()
    ensures var lost := Apply(ONE_DEVICE, Apply(ONE_DEVICE, INITIAL, OpForceAttach(PRESENT)), OpIoAttach(PRESENT));
            && lost.io.AwaitingUpgrade? && !Grabbed(lost.input) && 0 in Plugged(lost.monitor)
            && !NoDoubleAdd(Apply(ONE_DEVICE, lost, OpHello(PRESENT)).monitor)
  {
    RunToLost();
    RunFromLost();
    PluggedAppend([], ADD_DEVICE);
    assert [] + [ADD_DEVICE] == [ADD_DEVICE];
    PluggedAppend([ADD_DEVICE], ReleaseAllKeys);
    var again := Apply(ONE_DEVICE, LOST, OpHello(PRESENT)).monitor;
    assert again[..2] == [ADD_DEVICE] + [ReleaseAllKeys];
    assert again[2].id in Plugged(again[..2]);
  }
}
