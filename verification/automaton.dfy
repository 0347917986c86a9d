/** The controller against an independent picture of it: an automaton over two states, and
    messages that follow from its transitions alone. */
module Automaton {
  import opened Common
  import opened Messages
  import opened ControllerModel
  import opened Entries
  import Histories
  import Ownership
  import Backup
  import Usb

  // ----- the automaton -----

  predicate AgentThere(ga: Ga) {
    ga.Up? || ga.Pinging?
  }

  predicate Asleep(ga: Ga) {
    ga.Suspending? || ga.Suspended?
  }

  // What a call is about: hotkeys stand for the action they are bound to, but for nothing
  // during a temporary entry.
  datatype Intent = Upgrade | Force | Exit | Other

  function IntentOf(cfg: Config, io: IoState, op: Op): Intent {
    match op
    case OpIoAttach(_) => Upgrade
    case OpForceAttach(_) => Force
    case OpIoDetach => Exit
    case OpSuspending => Exit
    case OpTemporaryExit => if io.TemporaryLightEntry? then Exit else Other
    case OpHotkey(index, _) =>
      if io.TemporaryLightEntry? || index >= |cfg.hotkeys| then Other
      else
        (match cfg.hotkeys[index].action
         case Exec => Other
         case Do(IoUpgrade) => Upgrade
         case Do(IoEntryForced) => Force
         case Do(IoExit) => Exit)
    case _ => Other
  }

  function NextAgent(cfg: Config, ga: Ga, io: IoState, op: Op): Ga {
    match op
    case OpPing => if ga.Up? then Pinging else if ga.Pinging? then Down else ga
    case OpPong => if ga.Pinging? then Up else ga
    case OpHello(_) => Up
    case OpSuspending => Suspending
    case OpQemuSuspended => Suspended
    case _ =>
      if !ga.Suspended? then ga
      else if IntentOf(cfg, io, op).Upgrade? then Resuming(true)
      else if op.OpLightAttach? then Resuming(false)
      else ga
  }

  function LightFrom(io: IoState): IoState {
    if io.Detached? || io.AwaitingUpgrade? then IoState.LightEntry else io
  }

  function NextEntry(cfg: Config, ga: Ga, io: IoState, op: Op): IoState {
    match IntentOf(cfg, io, op)
    case Force => FullEntry
    case Exit => Detached
    case Upgrade => if AgentThere(ga) then FullEntry else if ga.Down? then AwaitingUpgrade else io
    case Other =>
      match op
      case OpTryAttach(_) => if AgentThere(ga) then FullEntry else io
      case OpLightAttach => if Asleep(ga) then io else LightFrom(io)
      case OpTemporaryEntry(sender, _, _) =>
        if AgentThere(ga) && io.Detached? then IoState.TemporaryLightEntry(sender) else io
      case OpPing => if ga.Pinging? && (io.FullEntry? || io.TemporaryLightEntry?) then Detached else io
      case OpHello(_) =>
        if io.AwaitingUpgrade? || ga == Resuming(true) then FullEntry
        else if ga == Resuming(false) then LightFrom(io)
        else io
      case _ => io
  }

  // ----- messages -----

  // From not attached to attached, or to fully attached.
  predicate Enters(before: IoState, after: IoState) {
    (before.Detached? && !after.Detached?) || (!before.FullEntry? && after.FullEntry?)
  }

  // What the agent is told.
  function Told(cfg: Config, c: Controller, op: Op, after: IoState): seq<GaCmdOut> {
    (match op
     case OpPing => if c.ga.Up? then [Ping] else []
     case OpHello(_) => Registrations(cfg.hotkeys)
     case OpSuspend => if Asleep(c.ga) then [] else [GaCmdOut.Suspend]
     case OpShutdown => if AgentThere(c.ga) then [GaCmdOut.Shutdown] else []
     case OpTemporaryEntry(_, x, y) => if Enters(c.io, after) then [SetMousePosition(x, y)] else []
     case _ => [])
    + (if Enters(c.io, after) then [ReleaseModifiers] else [])
  }

  function UsbOf(op: Op): Usb.Resolution {
    match op
    case OpHello(env) => env.usb
    case OpHotkey(_, env) => env.usb
    case OpIoAttach(env) => env.usb
    case OpTryAttach(env) => env.usb
    case OpForceAttach(env) => env.usb
    case _ => map[]
  }

  // What the machine is told, backup apart.
  function Commanded(cfg: Config, c: Controller, op: Op, ga: Ga, after: IoState): seq<QmpCommand> {
    (if c.ga.Suspended? && ga.Resuming? then [SystemWakeup] else [])
    + (if op.OpShutdown? && !AgentThere(c.ga) then [SystemPowerdown] else [])
    + (if Ownership.IsLight(c.io) && !Ownership.IsLight(after) && !(c.io.TemporaryLightEntry? && after.FullEntry?)
       then [ReleaseAllKeys] else [])
    + (if !c.io.FullEntry? && after.FullEntry? then HotplugAdds(cfg.usb, UsbOf(op), Usb.SortByBus(cfg.usb)) else [])
    + (if c.io.FullEntry? && after.Detached? then DetachDels(cfg.usb) else [])
  }

  // What is done with the host's input devices.
  function Called(before: IoState, after: IoState): seq<InputCall> {
    (if before.Detached? && Ownership.IsLight(after) then [Resume] else [])
    + (if Ownership.IsLight(before) && !Ownership.IsLight(after) then [Release] else [])
  }

  predicate StatesFollow(cfg: Config, c: Controller, op: Op, r: Controller) {
    r.ga == NextAgent(cfg, c.ga, c.io, op) && r.io == NextEntry(cfg, c.ga, c.io, op)
  }

  predicate MessagesFollow(cfg: Config, c: Controller, op: Op, r: Controller) {
    && r.clientpipe == c.clientpipe + Told(cfg, c, op, r.io)
    && r.monitor == c.monitor + Commanded(cfg, c, op, r.ga, r.io)
    && r.input == c.input + Called(c.io, r.io)
  }

  // The states follow the automaton and the messages its transition.
  predicate Follows(cfg: Config, c: Controller, op: Op, r: Controller) {
    StatesFollow(cfg, c, op, r) && MessagesFollow(cfg, c, op, r)
  }

  // ----- each call follows -----

  // Calls that may enter fully and send nothing else.
  predicate OnlyEnters(op: Op) {
    op.OpIoAttach? || op.OpTryAttach? || op.OpForceAttach? || op.OpHotkey?
  }

  lemma ForceFollows(cfg: Config, c: Controller, op: Op, env: Env)
    requires OnlyEnters(op) && UsbOf(op) == env.usb
    ensures MessagesFollow(cfg, c, op, IoForceAttach(cfg, c, env))
  {
  }

  lemma LightFollows(cfg: Config, c: Controller, op: Op)
    requires OnlyEnters(op) || op.OpLightAttach?
    ensures MessagesFollow(cfg, c, op, LightAttach(c))
    ensures op.OpLightAttach? ==> StatesFollow(cfg, c, op, LightAttach(c))
  {
  }

  lemma AttachFollows(cfg: Config, c: Controller, op: Op, env: Env)
    requires OnlyEnters(op) && UsbOf(op) == env.usb
    ensures MessagesFollow(cfg, c, op, IoAttach(cfg, c, env))
    ensures op.OpIoAttach? ==> StatesFollow(cfg, c, op, IoAttach(cfg, c, env))
  {
    if AgentThere(c.ga) {
      ForceFollows(cfg, c, op, env);
    } else if c.ga.Down? {
      LightFollows(cfg, c, op);
    }
  }

  lemma DetachFollows(cfg: Config, c: Controller, op: Op)
    requires op.OpIoDetach? || op.OpTemporaryExit? || op.OpSuspending? || op.OpHotkey?
    ensures MessagesFollow(cfg, c, op, IoDetach(cfg, c))
  {
  }

  lemma TemporaryFollows(cfg: Config, c: Controller, op: Op)
    requires op.OpTemporaryEntry?
    ensures Follows(cfg, c, op, Apply(cfg, c, op))
  {
  }

  lemma PingFollows(cfg: Config, c: Controller)
    ensures Follows(cfg, c, OpPing, GaPing(cfg, c).0)
  {
    DetachFollows(cfg, c.(ga := Down), OpIoDetach);
  }

  lemma HotkeyFollows(cfg: Config, c: Controller, index: nat, env: Env)
    ensures Follows(cfg, c, OpHotkey(index, env), GaHotkey(cfg, c, index, env))
  {
    var op := OpHotkey(index, env);
    match IntentOf(cfg, c.io, op)
    case Upgrade => UpgradeFollows(cfg, c, index, env);
    case Force => ForceFollows(cfg, c, op, env);
    case Exit => DetachFollows(cfg, c, op);
    case Other =>
  }

  lemma UpgradeFollows(cfg: Config, c: Controller, index: nat, env: Env)
    requires IntentOf(cfg, c.io, OpHotkey(index, env)).Upgrade?
    ensures Follows(cfg, c, OpHotkey(index, env), GaHotkey(cfg, c, index, env))
  {
    AttachFollows(cfg, c, OpHotkey(index, env), env);
    AttachFollows(cfg, c, OpIoAttach(env), env);
  }

  lemma HelloFollows(cfg: Config, c: Controller, env: Env)
    ensures Follows(cfg, c, OpHello(env), GaHello(cfg, c, env).0)
  {
    HelloAttachesOnce(cfg, c, env);
    ForceFollows(cfg, Greeted(cfg, c), OpForceAttach(env), env);
    LightFollows(cfg, Greeted(cfg, c), OpLightAttach);
  }

  lemma EnteringFollows(cfg: Config, c: Controller, op: Op)
    requires op.OpIoAttach? || op.OpTryAttach? || op.OpForceAttach?
    ensures Follows(cfg, c, op, Apply(cfg, c, op))
  {
    if op.OpIoAttach? {
      AttachFollows(cfg, c, op, op.env);
    } else {
      ForceFollows(cfg, c, op, op.env);
    }
  }

  lemma LeavingFollows(cfg: Config, c: Controller, op: Op)
    requires op.OpIoDetach? || op.OpTemporaryExit? || op.OpSuspending?
    ensures Follows(cfg, c, op, Apply(cfg, c, op))
  {
    DetachFollows(cfg, c, op);
  }

  lemma StayingFollows(cfg: Config, c: Controller, op: Op)
    requires op.OpPong? || op.OpQemuSuspended? || op.OpSuspend? || op.OpShutdown? || op.OpMouse?
    ensures Follows(cfg, c, op, Apply(cfg, c, op))
  {
  }

  // Every call but a backup request is determined by the automaton.
  lemma ApplyFollows(cfg: Config, c: Controller, op: Op)
    requires !op.OpBackup?
    ensures Follows(cfg, c, op, Apply(cfg, c, op))
  {
    if op.OpHello? {
      HelloFollows(cfg, c, op.env);
    } else if op.OpHotkey? {
      HotkeyFollows(cfg, c, op.index, op.env);
    } else if op.OpLightAttach? {
      LightFollows(cfg, c, op);
    } else if op.OpTemporaryEntry? {
      TemporaryFollows(cfg, c, op);
    } else if op.OpPing? {
      PingFollows(cfg, c);
    } else if op.OpIoAttach? || op.OpTryAttach? || op.OpForceAttach? {
      EnteringFollows(cfg, c, op);
    } else if op.OpIoDetach? || op.OpTemporaryExit? || op.OpSuspending? {
      LeavingFollows(cfg, c, op);
    } else {
      StayingFollows(cfg, c, op);
    }
  }

  // A backup request moves nothing and only sends its commands.
  lemma BackupMovesNothing(cfg: Config, c: Controller, existing: set<string>, leave: bool)
    ensures var r := BackupMode(cfg, c, existing, leave).0;
            && r.ga == c.ga && r.io == c.io && r.input == c.input && r.clientpipe == c.clientpipe
            && r.monitor == c.monitor + SnapshotCommands(
                 cfg.snapshots, SnapshotDisks(cfg.snapshots, existing, leave), leave, c.acks)
  {
  }
}
