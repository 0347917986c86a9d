/** The driver's controller as a transition system on values. */
module ControllerModel {
  import opened Common
  import opened Usb
  import opened Messages
  import opened Hotkeys

  datatype Ga =
    | Down
    | Up
    | Pinging
    | Suspending
    | Suspended
    | Resuming(full: bool)

  // A temporary entry keeps the sender of the control connection that asked for it.
  datatype IoState =
    | Detached
    | LightEntry
    | TemporaryLightEntry(sender: nat)
    | AwaitingUpgrade
    | FullEntry

  datatype Action = IoUpgrade | IoEntryForced | IoExit
  datatype HotKeyAction = Exec | Do(action: Action)
  datatype HotKey = HotKey(key: KeyBinding, action: HotKeyAction)

  datatype Config = Config(usb: seq<UsbDevice>, hotkeys: seq<HotKey>, snapshots: seq<Option<string>>)

  // The calls that grab (Resume) and release (Suspend) the host's input devices.
  datatype InputCall = Resume | Release

  // What the surrounding system answers while one call runs.
  datatype Env = Env(usb: Resolution, existing: set<string>)

  // The queues are kept as the sequence of everything ever sent into them.
  datatype Controller = Controller(
    ga: Ga,
    io: IoState,
    suspendSenders: seq<nat>,
    waiters: nat,
    completed: seq<nat>,
    input: seq<InputCall>,
    monitor: seq<QmpCommand>,
    clientpipe: seq<GaCmdOut>,
    control: seq<(nat, ControlCmdOut)>,
    acks: nat)

  // The driver releases the input devices once before it creates the controller.
  const INITIAL := Controller(Down, Detached, [], 0, [], [Release], [], [], [], 0)

  // ----- what the monitor queue means -----

  predicate TouchesUsb(cmd: QmpCommand) {
    cmd.DeviceAdd? || cmd.DeviceDel?
  }

  function PluggedBy(cmd: QmpCommand, before: set<nat>): set<nat> {
    match cmd
    case DeviceAdd(id, _, _) => before + {id}
    case DeviceDel(id) => before - {id}
    case _ => before
  }

  // The ids that the machine holds once it has executed the queue.
  function Plugged(queue: seq<QmpCommand>): set<nat> {
    if queue == [] then {}
    else PluggedBy(queue[|queue| - 1], Plugged(queue[..|queue| - 1]))
  }

  // No id is added while it is plugged.
  ghost predicate NoDoubleAdd(queue: seq<QmpCommand>) {
    forall i :: 0 <= i < |queue| && queue[i].DeviceAdd? ==> queue[i].id !in Plugged(queue[..i])
  }

  predicate Grabbed(input: seq<InputCall>) {
    input != [] && input[|input| - 1] == Resume
  }

  // The devices are never grabbed again while they are grabbed.
  ghost predicate NoDoubleGrab(input: seq<InputCall>) {
    forall i :: 0 <= i < |input| && input[i] == Resume ==> !Grabbed(input[..i])
  }

  // ----- elementary effects -----

  function WriteGa(c: Controller, cmd: GaCmdOut): Controller {
    c.(clientpipe := c.clientpipe + [cmd])
  }

  function SendMonitor(c: Controller, cmd: QmpCommand): Controller {
    c.(monitor := c.monitor + [cmd])
  }

  function CallInput(c: Controller, call: InputCall): Controller {
    c.(input := c.input + [call])
  }

  function PrepareEntry(c: Controller): Controller {
    WriteGa(c, ReleaseModifiers)
  }

  // ----- attaching and detaching -----

  // One DeviceAdd per non-permanent device that is present, at the slot of its rank.
  function HotplugAdds(devices: seq<UsbDevice>, usb: Resolution, order: seq<nat>): seq<QmpCommand>
    requires forall p :: 0 <= p < |order| ==> order[p] < |devices|
  {
    if order == [] then []
    else
      var last := |order| - 1;
      var k := order[last];
      HotplugAdds(devices, usb, order[..last])
      + (if !devices[k].permanent && k in usb then [DeviceAdd(k, SlotOf(devices, k), usb[k])] else [])
  }

  lemma HotplugAddsStep(devices: seq<UsbDevice>, usb: Resolution, order: seq<nat>, p: nat)
    requires p < |order| && forall q :: 0 <= q < |order| ==> order[q] < |devices|
    ensures HotplugAdds(devices, usb, order[..p + 1]) ==
            HotplugAdds(devices, usb, order[..p])
            + (if !devices[order[p]].permanent && order[p] in usb
               then [DeviceAdd(order[p], SlotOf(devices, order[p]), usb[order[p]])] else [])
  {
    assert order[..p + 1][..p] == order[..p];
  }

  lemma {:induction false} AddsAreAdds(devices: seq<UsbDevice>, usb: Resolution, order: seq<nat>)
    requires forall p :: 0 <= p < |order| ==> order[p] < |devices|
    ensures forall i :: 0 <= i < |HotplugAdds(devices, usb, order)| ==> HotplugAdds(devices, usb, order)[i].DeviceAdd?
  {
    if order != [] { AddsAreAdds(devices, usb, order[..|order| - 1]); }
  }

  function DetachDels(devices: seq<UsbDevice>): seq<QmpCommand> {
    if devices == [] then []
    else
      var last := |devices| - 1;
      DetachDels(devices[..last]) + (if !devices[last].permanent then [DeviceDel(last)] else [])
  }

  function LightAttach(c: Controller): Controller {
    match c.ga
    case Suspending => c
    case Suspended => SendMonitor(c, SystemWakeup).(ga := Resuming(false))
    case _ =>
      match c.io
      case Detached => CallInput(PrepareEntry(c), Resume).(io := IoState.LightEntry)
      case AwaitingUpgrade => c.(io := IoState.LightEntry)
      case _ => c
  }

  // Leaving a light entry on the way to a full one.
  function ReleaseLight(c: Controller): Controller {
    match c.io
    case AwaitingUpgrade => SendMonitor(CallInput(c, Release), ReleaseAllKeys)
    case LightEntry => SendMonitor(CallInput(c, Release), ReleaseAllKeys)
    case TemporaryLightEntry(sender) =>
      CallInput(c, Release).(control := c.control + [(sender, TemporaryLightDetached)])
    case _ => c
  }

  function IoForceAttach(cfg: Config, c: Controller, env: Env): Controller {
    if c.io.FullEntry? then c
    else
      var r := PrepareEntry(ReleaseLight(c));
      r.(monitor := r.monitor + HotplugAdds(cfg.usb, env.usb, SortByBus(cfg.usb)), io := FullEntry)
  }

  function IoAttach(cfg: Config, c: Controller, env: Env): Controller {
    match c.ga
    case Resuming(_) => c
    case Suspending => c
    case Suspended => SendMonitor(c, SystemWakeup).(ga := Resuming(true))
    case Down => LightAttach(c).(io := AwaitingUpgrade)
    case _ => IoForceAttach(cfg, c, env)
  }

  function TryAttach(cfg: Config, c: Controller, env: Env): Controller {
    if c.ga.Up? || c.ga.Pinging? then IoForceAttach(cfg, c, env) else c
  }

  function IoDetach(cfg: Config, c: Controller): Controller {
    match c.io
    case Detached => c
    case FullEntry => c.(monitor := c.monitor + DetachDels(cfg.usb), io := Detached)
    case _ => SendMonitor(CallInput(c, Release), ReleaseAllKeys).(io := Detached)
  }

  predicate TemporaryEntryPossible(c: Controller) {
    (c.ga.Up? || c.ga.Pinging?) && c.io.Detached?
  }

  function TemporaryEntry(c: Controller, sender: nat, x: int, y: int): Controller {
    if TemporaryEntryPossible(c) then
      LightAttach(WriteGa(c, SetMousePosition(x, y))).(io := IoState.TemporaryLightEntry(sender))
    else c
  }

  function TemporaryExit(cfg: Config, c: Controller): Controller {
    if c.io.TemporaryLightEntry? then IoDetach(cfg, c) else c
  }

  // ----- the guest agent -----

  // The flag tells the timer whether to go on.
  function GaPing(cfg: Config, c: Controller): (Controller, bool) {
    match c.ga
    case Pinging =>
      var down := c.(ga := Down);
      (match down.io
       case FullEntry => IoDetach(cfg, down)
       case TemporaryLightEntry(_) => TemporaryExit(cfg, down)
       case _ => down, false)
    case Up => (WriteGa(c.(ga := Pinging), Ping), true)
    case _ => (c, false)
  }

  function GaPong(c: Controller): Controller {
    if c.ga.Pinging? then c.(ga := Up) else c
  }

  function Registrations(hotkeys: seq<HotKey>): seq<GaCmdOut> {
    if hotkeys == [] then []
    else
      var last := |hotkeys| - 1;
      var mask := hotkeys[last].key.ToWindows();
      Registrations(hotkeys[..last]) + [RegisterHotKey(last, mask.0, mask.1)]
  }

  // Every hello registers the hotkeys and completes an upgrade that waited for it.
  function GreetAgent(cfg: Config, c: Controller, env: Env): Controller {
    var up := c.(clientpipe := c.clientpipe + Registrations(cfg.hotkeys), ga := Up);
    if up.io.AwaitingUpgrade? then IoAttach(cfg, up, env) else up
  }

  // The flag tells the caller whether to start a ping timer.
  function GaHello(cfg: Config, c: Controller, env: Env): (Controller, bool) {
    var r := GreetAgent(cfg, c, env);
    match c.ga
    case Down => (r, true)
    case Suspended => (r, true)
    case Resuming(full) => (if full then IoForceAttach(cfg, r, env) else LightAttach(r), true)
    case _ => (r, false)
  }

  function GaSuspending(cfg: Config, c: Controller): Controller {
    IoDetach(cfg, c).(ga := Suspending)
  }

  function QemuSuspended(c: Controller): Controller {
    c.(ga := Suspended, completed := c.completed + c.suspendSenders, suspendSenders := [])
  }

  function GaHotkey(cfg: Config, c: Controller, index: nat, env: Env): Controller {
    if index >= |cfg.hotkeys| || cfg.hotkeys[index].action.Exec? || c.io.TemporaryLightEntry? then c
    else
      match cfg.hotkeys[index].action.action
      case IoUpgrade => IoAttach(cfg, c, env)
      case IoEntryForced => IoForceAttach(cfg, c, env)
      case IoExit => IoDetach(cfg, c)
  }

  // A call either finds the machine suspended or waits under the returned number.
  function SuspendMachine(c: Controller): (Controller, Option<nat>) {
    if c.ga.Suspended? then (c, None)
    else
      var r := if c.ga.Suspending? then c else WriteGa(c, GaCmdOut.Suspend);
      (r.(suspendSenders := r.suspendSenders + [r.waiters], waiters := r.waiters + 1), Some(c.waiters))
  }

  function ShutdownMachine(c: Controller): Controller {
    if c.ga.Up? || c.ga.Pinging? then WriteGa(c, GaCmdOut.Shutdown) else SendMonitor(c, SystemPowerdown)
  }

  function MouseMoved(c: Controller, x: int, y: int): Controller {
    match c.io
    case TemporaryLightEntry(sender) => c.(control := c.control + [(sender, MouseEdged(x, y))])
    case _ => c
  }

  // ----- backup mode -----

  // All of these disks have a snapshot file configured.
  predicate Configured(snapshots: seq<Option<string>>, disks: seq<nat>) {
    forall k :: 0 <= k < |disks| ==> disks[k] < |snapshots| && snapshots[disks[k]].Some?
  }

  // The disks whose snapshot file is configured and exists (or does not), in order.
  function SnapshotDisks(snapshots: seq<Option<string>>, existing: set<string>, present: bool): (r: seq<nat>)
    ensures Configured(snapshots, r)
    ensures forall j, k :: 0 <= j < k < |r| ==> r[j] < r[k]
    ensures forall k :: 0 <= k < |r| ==> (snapshots[r[k]].value in existing) == present
  {
    if snapshots == [] then []
    else
      var last := |snapshots| - 1;
      SnapshotDisks(snapshots[..last], existing, present)
      + (if snapshots[last].Some? && (snapshots[last].value in existing) == present then [last] else [])
  }

  function SnapshotCommand(snapshots: seq<Option<string>>, d: nat, commit: bool, ack: nat): QmpCommand
    requires d < |snapshots| && snapshots[d].Some?
  {
    var file := snapshots[d].value;
    if commit then CommitSnapshot(d, file, ack) else TakeSnapshot(d, file, ack)
  }

  // One command per disk, each with a fresh ack.
  function SnapshotCommands(
    snapshots: seq<Option<string>>, disks: seq<nat>, commit: bool, ack: nat): (r: seq<QmpCommand>)
    requires Configured(snapshots, disks)
  {
    seq(|disks|, k requires 0 <= k < |disks| => SnapshotCommand(snapshots, disks[k], commit, ack + k))
  }

  // Entering takes snapshots where none exists, leaving commits the existing ones;
  // the returned acks are to be awaited before the request counts as done.
  function BackupMode(cfg: Config, c: Controller, existing: set<string>, leave: bool): (Controller, seq<nat>) {
    var disks := SnapshotDisks(cfg.snapshots, existing, leave);
    (c.(monitor := c.monitor + SnapshotCommands(cfg.snapshots, disks, leave, c.acks), acks := c.acks + |disks|),
     Range(c.acks, c.acks + |disks|))
  }

  // ----- the controller's interface as one alphabet -----

  datatype Op =
    | OpPing
    | OpPong
    | OpHello(env: Env)
    | OpSuspending
    | OpQemuSuspended
    | OpHotkey(index: nat, env: Env)
    | OpIoAttach(env: Env)
    | OpTryAttach(env: Env)
    | OpForceAttach(env: Env)
    | OpLightAttach
    | OpIoDetach
    | OpTemporaryEntry(sender: nat, x: int, y: int)
    | OpTemporaryExit
    | OpSuspend
    | OpShutdown
    | OpMouse(x: int, y: int)
    | OpBackup(existing: set<string>, leave: bool)

  function Apply(cfg: Config, c: Controller, op: Op): Controller {
    match op
    case OpPing => GaPing(cfg, c).0
    case OpPong => GaPong(c)
    case OpHello(env) => GaHello(cfg, c, env).0
    case OpSuspending => GaSuspending(cfg, c)
    case OpQemuSuspended => QemuSuspended(c)
    case OpHotkey(index, env) => GaHotkey(cfg, c, index, env)
    case OpIoAttach(env) => IoAttach(cfg, c, env)
    case OpTryAttach(env) => TryAttach(cfg, c, env)
    case OpForceAttach(env) => IoForceAttach(cfg, c, env)
    case OpLightAttach => LightAttach(c)
    case OpIoDetach => IoDetach(cfg, c)
    case OpTemporaryEntry(sender, x, y) => TemporaryEntry(c, sender, x, y)
    case OpTemporaryExit => TemporaryExit(cfg, c)
    case OpSuspend => SuspendMachine(c).0
    case OpShutdown => ShutdownMachine(c)
    case OpMouse(x, y) => MouseMoved(c, x, y)
    case OpBackup(existing, leave) => BackupMode(cfg, c, existing, leave).0
  }

  function ApplyAll(cfg: Config, c: Controller, ops: seq<Op>): Controller {
    if ops == [] then c
    else Apply(cfg, ApplyAll(cfg, c, ops[..|ops| - 1]), ops[|ops| - 1])
  }
}
