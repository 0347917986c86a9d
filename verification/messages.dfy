/** What travels through the driver's queues. */
module Messages {
  import opened Usb
  import Hotkeys

  datatype InputEvent =
    | Pointer
    | Key(key: Hotkeys.Qcode, down: bool)

  // An id "usb{i}" is represented by i, a job or node "disk{i}" by i. An ack is the
  // number of the oneshot channel whose sender travels with the command.
  datatype QmpCommand =
    | DeviceAdd(id: nat, slot: Slot, address: HostAddress)
    | DeviceDel(id: nat)
    | SystemPowerdown
    | SystemWakeup
    | InputSendEvent(events: seq<InputEvent>)
    | TakeSnapshot(disk: nat, file: string, ack: nat)
    | CommitSnapshot(disk: nat, file: string, ack: nat)
    | ReleaseAllKeys
    | JobReady(disk: nat)

  datatype GaCmdOut =
    | Ping
    | ReleaseModifiers
    | Suspend
    | RegisterHotKey(id: nat, modifiers: bv32, key: Hotkeys.Key)
    | SetMousePosition(x: int, y: int)
    | Shutdown

  datatype ControlCmdIn =
    | IoEntry
    | TryIoEntry
    | LightEntry
    | Shutdown
    | ForceIoEntry
    | IoExit
    | Suspend
    | TemporaryLightEntry(x: int, y: int)
    | EnterBackupMode
    | LeaveBackupMode

  datatype ControlCmdOut =
    | MouseEdged(x: int, y: int)
    | TemporaryLightAttached
    | TemporaryLightDetached
    | Ack
}
