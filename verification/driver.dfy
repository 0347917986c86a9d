/** The handlers that call the controller, each with the state it keeps between calls. */
module Driver {
  import opened Common
  import opened Messages
  import M = ControllerModel
  import opened Controllers
  import D = DriverModel

  class ControlConnection {
    const id: nat
    var tempEntry: bool
    var open: bool
    var waiting: Option<nat>
    var forwarders: nat
    var announced: seq<ControlCmdOut>

    constructor (id: nat)
      ensures this.id == id && Value() == D.ACCEPTED
    {
      this.id := id;
      tempEntry, open, waiting, forwarders, announced := false, true, None, 0, [];
    }

    ghost function Value(): D.Connection
      reads this
    {
      D.Connection(tempEntry, open, waiting, forwarders, announced)
    }

    // The acks are those of the snapshot commands a backup request has sent.
    method OnRequest(controller: Controller, req: ControlCmdIn, env: M.Env) returns (acks: seq<nat>)
      requires controller.Valid() && open && waiting.None?
      modifies this, controller, controller.input
      ensures controller.Valid()
      ensures controller.State() ==
              M.Apply(controller.machine, old(controller.State()), D.RequestOp(old(tempEntry), id, req, env))
      ensures Value() == D.AfterRequest(old(Value()), old(controller.State()), req)
      ensures !old(tempEntry) && (req.EnterBackupMode? || req.LeaveBackupMode?) ==>
                acks == M.BackupMode(controller.machine, old(controller.State()), env.existing, req.LeaveBackupMode?).1
    {
      acks := [];
      if tempEntry {
        controller.TemporaryExit();
        if req.IoExit? {
          tempEntry := false;
        } else {
          open := false;
        }
      } else if req.Suspend? {
        waiting := controller.Suspend();
      } else if req.TemporaryLightEntry? {
        EnterTemporarily(controller, req.x, req.y);
      } else {
        acks := Forward(controller, req, env);
      }
    }

    method EnterTemporarily(controller: Controller, x: int, y: int)
      requires controller.Valid() && !tempEntry
      modifies this, controller, controller.input
      ensures controller.Valid()
      ensures controller.State() == M.TemporaryEntry(old(controller.State()), id, x, y)
      ensures Value() == D.AfterRequest(old(Value()), old(controller.State()), ControlCmdIn.TemporaryLightEntry(x, y))
    {
      var entered := controller.TemporaryEntry(id, x, y);
      if !entered {
        open := false;
      } else {
        announced := announced + [TemporaryLightAttached];
        tempEntry := true;
        forwarders := forwarders + 1;
      }
    }

    // The requests that do not touch the connection.
    method Forward(controller: Controller, req: ControlCmdIn, env: M.Env) returns (acks: seq<nat>)
      requires controller.Valid() && !req.Suspend? && !req.TemporaryLightEntry?
      modifies controller, controller.input
      ensures controller.Valid()
      ensures controller.State() ==
              M.Apply(controller.machine, old(controller.State()), D.RequestOp(false, id, req, env))
      ensures req.EnterBackupMode? || req.LeaveBackupMode? ==>
                acks == M.BackupMode(controller.machine, old(controller.State()), env.existing, req.LeaveBackupMode?).1
    {
      acks := [];
      match req
      case EnterBackupMode => acks := controller.BackupMode(env.existing, false);
      case LeaveBackupMode => acks := controller.BackupMode(env.existing, true);
      case Shutdown => controller.Shutdown();
      case IoEntry => controller.IoAttach(env);
      case ForceIoEntry => controller.IoForceAttach(env);
      case IoExit => controller.IoDetach();
      case TryIoEntry => controller.TryAttach(env);
      case LightEntry => controller.LightAttach();
    }

    // The channel of a temporary entry is closed, or the socket is.
    method OnForwarderEnd(controller: Controller)
      requires controller.Valid() && forwarders > 0
      modifies this, controller, controller.input
      ensures controller.Valid()
      ensures controller.State() == M.Apply(controller.machine, old(controller.State()), M.OpTemporaryExit)
      ensures Value() == D.AfterForwarder(old(Value()))
    {
      controller.TemporaryExit();
      announced := announced + [TemporaryLightDetached];
      forwarders := forwarders - 1;
    }
  }

  class Clientpipe {
    // Ping timers that have been spawned and have not ended.
    var timers: nat

    constructor ()
      ensures timers == 0
    {
      timers := 0;
    }

    method OnMessage(controller: Controller, msg: D.GaCmdIn, env: M.Env)
      requires controller.Valid()
      modifies this, controller, controller.input
      ensures controller.Valid()
      ensures controller.State() ==
              match D.MessageOp(msg, env)
              case Some(op) => M.Apply(controller.machine, old(controller.State()), op)
              case None => old(controller.State())
      ensures timers == D.TimersAfterMessage(controller.machine, old(controller.State()), old(timers), msg, env)
    {
      match msg
      case ReportBoot =>
        var startTimer := controller.GaHello(env);
        if startTimer {
          timers := timers + 1;
        }
      case Suspending => controller.GaSuspending();
      case Pong => controller.GaPong();
      case HotKey(index) => controller.GaHotkey(index, env);
      case MouseEdged(x, y) => controller.MouseEdged(x, y);
      case Unrelated =>
    }

    method OnTick(controller: Controller)
      requires controller.Valid() && timers > 0
      modifies this, controller, controller.input
      ensures controller.Valid()
      ensures controller.State() == M.Apply(controller.machine, old(controller.State()), M.OpPing)
      ensures timers == D.TimersAfterTick(controller.machine, old(controller.State()), old(timers))
    {
      var again := controller.GaPing();
      if !again {
        timers := timers - 1;
      }
    }
  }

  class SleepInhibitor {
    // Whether the inhibitor's file descriptor is held.
    var lock: bool
    var awaiting: Option<nat>

    constructor ()
      ensures lock && awaiting == None
    {
      lock, awaiting := true, None;
    }

    // Signals are handled one after the other, so none is handled while one waits.
    method OnPrepareForSleep(controller: Controller, starting: bool)
      requires controller.Valid() && awaiting.None?
      modifies this, controller
      ensures controller.Valid()
      ensures starting ==>
                && (controller.State(), awaiting) == M.SuspendMachine(old(controller.State()))
                && (lock <==> old(lock) && awaiting.Some?)
      ensures !starting ==> lock && awaiting.None? && controller.State() == old(controller.State())
    {
      if starting {
        awaiting := controller.Suspend();
        if awaiting.None? {
          lock := false;
        }
      } else {
        lock := true;
      }
    }

    method OnSuspended(ghost completed: seq<nat>)
      requires awaiting.Some? && awaiting.value in completed
      modifies this
      ensures awaiting.None? && !lock
    {
      awaiting := None;
      lock := false;
    }
  }
}
