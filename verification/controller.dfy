/** The controller as the driver runs it: one shared object, changed call by call. */
module Controllers {
  import opened Common
  import opened Usb
  import opened Messages
  import M = ControllerModel
  import Ownership

  // The host's input devices; a handle is an opened and grabbed input node, known by the
  // configured USB device it belongs to.
  class Input {
    const devices: seq<UsbDevice>
    var deviceHandles: seq<nat>
    ghost var calls: seq<M.InputCall>

    // Nothing is held unless it was resumed, and no permanent device ever is.
    ghost predicate Valid()
      reads this
    {
      && (!M.Grabbed(calls) ==> deviceHandles == [])
      && Taken(deviceHandles)
    }

    predicate Taken(handles: seq<nat>) {
      forall k :: 0 <= k < |handles| ==> handles[k] < |devices| && !devices[handles[k]].permanent
    }

    constructor (devices: seq<UsbDevice>)
      ensures Valid() && this.devices == devices && deviceHandles == [] && calls == []
    {
      this.devices := devices;
      deviceHandles, calls := [], [];
    }

    method Suspend()
      modifies this
      ensures Valid() && deviceHandles == [] && calls == old(calls) + [M.Release]
    {
      while deviceHandles != []
        invariant calls == old(calls)
        decreases |deviceHandles|
      {
        deviceHandles := deviceHandles[1..];
      }
      calls := calls + [M.Release];
    }

    // nodes[i] input nodes of device i are found and can be opened.
    method Resume(nodes: nat -> nat)
      requires Valid()
      modifies this
      ensures Valid() && calls == old(calls) + [M.Resume]
      ensures deviceHandles == old(deviceHandles) + Opened(devices, nodes)
    {
      var i := 0;
      while i < |devices|
        invariant i <= |devices| && calls == old(calls)
        invariant deviceHandles == old(deviceHandles) + Opened(devices[..i], nodes)
        invariant Taken(deviceHandles)
      {
        assert devices[..i + 1][..i] == devices[..i];
        if !devices[i].permanent {
          deviceHandles := deviceHandles + seq(nodes(i), _ => i);
        }
        i := i + 1;
      }
      assert devices[..i] == devices;
      calls := calls + [M.Resume];
    }
  }

  // The handles of all input nodes of the devices that are not permanent.
  function Opened(devices: seq<UsbDevice>, nodes: nat -> nat): seq<nat> {
    if devices == [] then []
    else
      var last := |devices| - 1;
      Opened(devices[..last], nodes) + (if devices[last].permanent then [] else seq(nodes(last), _ => last))
  }

  // Each device that is not permanent contributes all its nodes, the others none.
  lemma {:induction false} OpenedAreAllNodes(devices: seq<UsbDevice>, nodes: nat -> nat, i: nat)
    ensures multiset(Opened(devices, nodes))[i] ==
            if i < |devices| && !devices[i].permanent then nodes(i) else 0
  {
    if devices != [] {
      var last := |devices| - 1;
      OpenedAreAllNodes(devices[..last], nodes, i);
      SameCount(nodes(last), last, i);
    }
  }

  lemma {:induction false} SameCount(count: nat, x: nat, i: nat)
    ensures multiset(seq(count, _ => x))[i] == if i == x then count else 0
  {
    if count > 0 {
      SameCount(count - 1, x, i);
      assert seq(count, _ => x) == seq(count - 1, _ => x) + [x];
    }
  }

  // Outside the light states the host keeps hold of no input device.
  lemma NothingHeldOutsideLight(c: Controller)
    requires c.Valid() && Ownership.GrabsAreSane(c.State()) && !Ownership.IsLight(c.ioState)
    ensures c.input.deviceHandles == []
  {
  }

  class Controller {
    const machine: M.Config
    const input: Input
    var ga: M.Ga
    var ioState: M.IoState
    var suspendSenders: seq<nat>
    var monitor: seq<QmpCommand>
    var clientpipe: seq<GaCmdOut>
    var control: seq<(nat, ControlCmdOut)>
    // Oneshot channels: how many were made, and which suspend waiters were served.
    var waiters: nat
    var completed: seq<nat>
    var acks: nat

    ghost function State(): M.Controller
      reads this, input
    {
      M.Controller(ga, ioState, suspendSenders, waiters, completed, input.calls, monitor, clientpipe, control, acks)
    }

    ghost predicate Valid()
      reads this, input
    {
      input.Valid() && input.devices == machine.usb
    }

    constructor (machine: M.Config, input: Input)
      requires input.Valid() && input.devices == machine.usb && input.calls == [M.Release]
      ensures Valid() && this.machine == machine && this.input == input
      ensures State() == M.INITIAL
    {
      this.machine, this.input := machine, input;
      ga, ioState := M.Down, M.Detached;
      suspendSenders, waiters, completed := [], 0, [];
      monitor, clientpipe, control, acks := [], [], [], 0;
    }

    method WriteGa(cmd: GaCmdOut)
      modifies this`clientpipe
      ensures clientpipe == old(clientpipe) + [cmd]
    {
      clientpipe := clientpipe + [cmd];
    }

    method SendMonitor(cmd: QmpCommand)
      modifies this`monitor
      ensures monitor == old(monitor) + [cmd]
    {
      monitor := monitor + [cmd];
    }

    method PrepareEntry()
      modifies this`clientpipe
      ensures clientpipe == old(clientpipe) + [ReleaseModifiers]
    {
      WriteGa(ReleaseModifiers);
    }

    method GaPing() returns (again: bool)
      requires Valid()
      modifies this, input
      ensures Valid()
      ensures (State(), again) == M.GaPing(machine, old(State()))
    {
      match ga
      case Pinging =>
        ga := M.Down;
        match ioState {
          case FullEntry => IoDetach();
          case TemporaryLightEntry(_) => TemporaryExit();
          case _ =>
        }
        again := false;
      case Up =>
        ga := M.Pinging;
        WriteGa(Ping);
        again := true;
      case _ =>
        again := false;
    }

    method GaPong()
      requires Valid()
      modifies this
      ensures Valid() && State() == M.GaPong(old(State()))
    {
      if ga == M.Pinging {
        ga := M.Up;
      }
    }

    method GaHello(env: M.Env) returns (startTimer: bool)
      requires Valid()
      modifies this, input
      ensures Valid()
      ensures (State(), startTimer) == M.GaHello(machine, old(State()), env)
    {
      var i := 0;
      while i < |machine.hotkeys|
        invariant i <= |machine.hotkeys|
        invariant State() == old(State()).(clientpipe := old(clientpipe) + M.Registrations(machine.hotkeys[..i]))
        invariant Valid()
      {
        assert machine.hotkeys[..i + 1][..i] == machine.hotkeys[..i];
        var mask := machine.hotkeys[i].key.ToWindows();
        WriteGa(RegisterHotKey(i, mask.0, mask.1));
        i := i + 1;
      }
      assert machine.hotkeys[..i] == machine.hotkeys;

      var before := ga;
      ga := M.Up;
      if ioState.AwaitingUpgrade? {
        IoAttach(env);
      }
      match before
      case Pinging => startTimer := false;
      case Up => startTimer := false;
      case Down => startTimer := true;
      case Suspended => startTimer := true;
      case Resuming(full) =>
        if full {
          IoForceAttach(env);
        } else {
          LightAttach();
        }
        startTimer := true;
      case Suspending => startTimer := false;
    }

    method GaSuspending()
      requires Valid()
      modifies this, input
      ensures Valid() && State() == M.GaSuspending(machine, old(State()))
    {
      IoDetach();
      ga := M.Suspending;
    }

    method QemuSuspended()
      requires Valid()
      modifies this
      ensures Valid() && State() == M.QemuSuspended(old(State()))
    {
      ga := M.Suspended;
      while suspendSenders != []
        invariant completed + suspendSenders == old(completed + suspendSenders)
        invariant State() == old(State()).(ga := M.Suspended, completed := completed, suspendSenders := suspendSenders)
        decreases |suspendSenders|
      {
        completed := completed + [suspendSenders[0]];
        suspendSenders := suspendSenders[1..];
      }
    }

    method GaHotkey(index: nat, env: M.Env)
      requires Valid()
      modifies this, input
      ensures Valid() && State() == M.GaHotkey(machine, old(State()), index, env)
    {
      if index < |machine.hotkeys| && machine.hotkeys[index].action.Do? {
        if ioState.TemporaryLightEntry? {
          return;
        }
        match machine.hotkeys[index].action.action
        case IoUpgrade => IoAttach(env);
        case IoEntryForced => IoForceAttach(env);
        case IoExit => IoDetach();
      }
    }

    method IoAttach(env: M.Env)
      requires Valid()
      modifies this, input
      ensures Valid() && State() == M.IoAttach(machine, old(State()), env)
    {
      match ga
      case Resuming(_) =>
      case Suspending =>
      case Suspended =>
        SendMonitor(SystemWakeup);
        ga := M.Resuming(true);
      case Down =>
        LightAttach();
        ioState := M.AwaitingUpgrade;
      case Up => IoForceAttach(env);
      case Pinging => IoForceAttach(env);
    }

    method TryAttach(env: M.Env)
      requires Valid()
      modifies this, input
      ensures Valid() && State() == M.TryAttach(machine, old(State()), env)
    {
      match ga
      case Up => IoForceAttach(env);
      case Pinging => IoForceAttach(env);
      case _ =>
    }

    method TemporaryEntry(sender: nat, x: int, y: int) returns (entered: bool)
      requires Valid()
      modifies this, input
      ensures Valid() && State() == M.TemporaryEntry(old(State()), sender, x, y)
      ensures entered <==> M.TemporaryEntryPossible(old(State()))
    {
      entered := false;
      if ga.Up? || ga.Pinging? {
        if ioState.Detached? {
          WriteGa(SetMousePosition(x, y));
          LightAttach();
          ioState := M.TemporaryLightEntry(sender);
          entered := true;
        }
      }
    }

    method TemporaryExit()
      requires Valid()
      modifies this, input
      ensures Valid() && State() == M.TemporaryExit(machine, old(State()))
    {
      if ioState.TemporaryLightEntry? {
        IoDetach();
      }
    }

    method LightAttach()
      requires Valid()
      modifies this, input
      ensures Valid() && State() == M.LightAttach(old(State()))
    {
      match ga {
        case Suspending => return;
        case Suspended =>
          SendMonitor(SystemWakeup);
          ga := M.Resuming(false);
          return;
        case _ =>
      }
      match ioState
      case Detached =>
        PrepareEntry();
        // udev and libinput decide which input nodes can be opened
        var nodes: nat -> nat := *;
        input.Resume(nodes);
        ioState := M.IoState.LightEntry;
      case AwaitingUpgrade =>
        ioState := M.IoState.LightEntry;
      case _ =>
    }

    method IoForceAttach(env: M.Env)
      requires Valid()
      modifies this, input
      ensures Valid() && State() == M.IoForceAttach(machine, old(State()), env)
    {
      if ioState.FullEntry? {
        return;
      }
      ReleaseLight();
      PrepareEntry();
      PlugDevices(env.usb);
      ioState := M.FullEntry;
    }

    method ReleaseLight()
      requires Valid()
      modifies this, input
      ensures Valid() && State() == M.ReleaseLight(old(State()))
    {
      match ioState
      case AwaitingUpgrade =>
        input.Suspend();
        SendMonitor(ReleaseAllKeys);
      case LightEntry =>
        input.Suspend();
        SendMonitor(ReleaseAllKeys);
      case TemporaryLightEntry(sender) =>
        input.Suspend();
        control := control + [(sender, TemporaryLightDetached)];
      case _ =>
    }

    // The hot-plug path sorts and counts on its own, and skips permanent devices.
    method PlugDevices(usb: Resolution)
      modifies this`monitor
      ensures monitor == old(monitor) + M.HotplugAdds(machine.usb, usb, SortByBus(machine.usb))
    {
      var devices := machine.usb;
      var sorted := SortByBus(devices);
      var p := 0;
      var port := 0;
      while p < |sorted|
        invariant p <= |sorted|
        invariant p > 0 ==> port == Rank(devices, sorted[p - 1])
        invariant monitor == old(monitor) + M.HotplugAdds(devices, usb, sorted[..p])
      {
        var i := sorted[p];
        // enumerate() starts anew with every group
        port := if p > 0 && devices[sorted[p - 1]].bus == devices[i].bus then port + 1 else 0;
        CountingIsRank(devices, sorted, p);
        M.HotplugAddsStep(devices, usb, sorted, p);
        if !devices[i].permanent && i in usb {
          SendMonitor(DeviceAdd(i, SlotAt(devices[i].bus, port), usb[i]));
        }
        p := p + 1;
      }
      assert sorted[..p] == sorted;
    }

    method Suspend() returns (waiter: Option<nat>)
      requires Valid()
      modifies this
      ensures Valid() && (State(), waiter) == M.SuspendMachine(old(State()))
    {
      if ga == M.Suspended {
        return None;
      }
      if ga != M.Suspending {
        WriteGa(GaCmdOut.Suspend);
      }
      waiter := Some(waiters);
      suspendSenders := suspendSenders + [waiters];
      waiters := waiters + 1;
    }

    method IoDetach()
      requires Valid()
      modifies this, input
      ensures Valid() && State() == M.IoDetach(machine, old(State()))
    {
      match ioState {
        case Detached =>
        case FullEntry =>
          var i := 0;
          while i < |machine.usb|
            invariant i <= |machine.usb|
            invariant State() == old(State()).(monitor := old(monitor) + M.DetachDels(machine.usb[..i]))
            invariant Valid()
          {
            assert machine.usb[..i + 1][..i] == machine.usb[..i];
            if !machine.usb[i].permanent {
              SendMonitor(DeviceDel(i));
            }
            i := i + 1;
          }
          assert machine.usb[..i] == machine.usb;
        case _ =>
          input.Suspend();
          SendMonitor(ReleaseAllKeys);
      }
      ioState := M.Detached;
    }

    method Shutdown()
      requires Valid()
      modifies this
      ensures Valid() && State() == M.ShutdownMachine(old(State()))
    {
      match ga
      case Up => WriteGa(GaCmdOut.Shutdown);
      case Pinging => WriteGa(GaCmdOut.Shutdown);
      case _ => SendMonitor(SystemPowerdown);
    }

    method MouseEdged(x: int, y: int)
      requires Valid()
      modifies this
      ensures Valid() && State() == M.MouseMoved(old(State()), x, y)
    {
      match ioState
      case TemporaryLightEntry(sender) => control := control + [(sender, ControlCmdOut.MouseEdged(x, y))];
      case _ =>
    }

    // Entering and leaving backup mode differ in the command and in whether the
    // snapshot file must exist.
    method BackupMode(existing: set<string>, leave: bool) returns (pending: seq<nat>)
      requires Valid()
      modifies this
      ensures Valid() && (State(), pending) == M.BackupMode(machine, old(State()), existing, leave)
    {
      pending := SendSnapshots(M.SnapshotDisks(machine.snapshots, existing, leave), leave);
    }

    method SendSnapshots(disks: seq<nat>, leave: bool) returns (pending: seq<nat>)
      requires M.Configured(machine.snapshots, disks)
      modifies this`monitor, this`acks
      ensures monitor == old(monitor) + M.SnapshotCommands(machine.snapshots, disks, leave, old(acks))
      ensures acks == old(acks) + |disks| && pending == Range(old(acks), acks)
    {
      pending := [];
      var k := 0;
      while k < |disks|
        invariant k <= |disks|
        invariant acks == old(acks) + k && pending == Range(old(acks), acks)
        invariant monitor == old(monitor) + M.SnapshotCommands(machine.snapshots, disks, leave, old(acks))[..k]
      {
        var file := machine.snapshots[disks[k]].value;
        pending := pending + [acks];
        SendMonitor(if leave then CommitSnapshot(disks[k], file, acks) else TakeSnapshot(disks[k], file, acks));
        acks := acks + 1;
        k := k + 1;
      }
    }
  }
}
