/** What those who ask for something get. */
module Outcomes {
  import opened Common
  import opened Messages
  import opened ControllerModel
  import opened Automaton
  import opened Backup
  import D = DriverModel
  import Histories
  import Ownership
  import Usb

  // ----- entering and leaving -----

  // Exactly the devices that are present and not permanent are in the machine.
  ghost predicate HasDevices(cfg: Config, c: Controller, usb: Usb.Resolution) {
    forall id :: id in Plugged(c.monitor) <==> Ownership.IsHotplugged(cfg.usb, id) && id in usb
  }

  // With the agent there, whoever asks to enter enters fully, from wherever, and the
  // machine has the devices.
  lemma EntryEnters(cfg: Config, c: Controller, op: Op)
    requires Ownership.Exclusive(cfg, c)
    requires IntentOf(cfg, c.io, op).Force?
      || (AgentThere(c.ga) && (op.OpTryAttach? || IntentOf(cfg, c.io, op).Upgrade?))
    ensures Apply(cfg, c, op).io.FullEntry?
    ensures !c.io.FullEntry? ==> HasDevices(cfg, Apply(cfg, c, op), UsbOf(op))
  {
    ApplyFollows(cfg, c, op);
    Ownership.IoForceAttachExclusive(cfg, c, Env(UsbOf(op), {}));
    if !c.io.FullEntry? { SameQueue(cfg, c, op); }
  }

  lemma SameQueue(cfg: Config, c: Controller, op: Op)
    requires !op.OpBackup? && !c.io.FullEntry? && Apply(cfg, c, op).io.FullEntry?
    requires OnlyEnters(op)
    ensures Apply(cfg, c, op).monitor == IoForceAttach(cfg, c, Env(UsbOf(op), {})).monitor
  {
    ApplyFollows(cfg, c, op);
    ForceFollows(cfg, c, OpForceAttach(Env(UsbOf(op), {})), Env(UsbOf(op), {}));
    var f := IoForceAttach(cfg, c, Env(UsbOf(op), {}));
    assert f.monitor == c.monitor + Commanded(cfg, c, op, c.ga, FullEntry);
  }

  // Whoever asks to leave leaves: nothing is plugged and nothing grabbed.
  lemma ExitLeaves(cfg: Config, c: Controller, op: Op)
    requires Ownership.Exclusive(cfg, c) && IntentOf(cfg, c.io, op).Exit?
    ensures var r := Apply(cfg, c, op);
            r.io.Detached? && Plugged(r.monitor) == {} && !Ownership.IsLight(r.io) && !Grabbed(r.input)
  {
    ApplyFollows(cfg, c, op);
    Ownership.ApplyKeepsExclusive(cfg, c, op);
    forall id ensures id !in Plugged(Apply(cfg, c, op).monitor) {
    }
  }

  // A light entry is there unless the machine sleeps or is about to.
  lemma LightEntryLights(cfg: Config, c: Controller)
    requires Ownership.Exclusive(cfg, c) && !Asleep(c.ga)
    ensures !LightAttach(c).io.Detached? && !LightAttach(c).io.AwaitingUpgrade?
    ensures !c.io.FullEntry? ==> Grabbed(LightAttach(c).input)
  {
    ApplyFollows(cfg, c, OpLightAttach);
    Ownership.ApplyKeepsExclusive(cfg, c, OpLightAttach);
  }

  // ----- an upgrade that waits for the agent -----

  predicate EndsWaiting(cfg: Config, io: IoState, op: Op) {
    op.OpHello? || op.OpLightAttach? || IntentOf(cfg, io, op).Force? || IntentOf(cfg, io, op).Exit?
  }

  predicate AgentAway(ga: Ga) {
    ga.Down? || ga.Suspended? || ga.Resuming?
  }

  lemma {:induction false} UpgradeWaits(cfg: Config, c: Controller, ops: seq<Op>)
    requires c.io.AwaitingUpgrade? && AgentAway(c.ga)
    requires forall i :: 0 <= i < |ops| ==> !EndsWaiting(cfg, AwaitingUpgrade, ops[i])
    ensures ApplyAll(cfg, c, ops).io.AwaitingUpgrade? && AgentAway(ApplyAll(cfg, c, ops).ga)
  {
    if ops != [] {
      var before, last := ApplyAll(cfg, c, ops[..|ops| - 1]), ops[|ops| - 1];
      UpgradeWaits(cfg, c, ops[..|ops| - 1]);
      if last.OpBackup? {
        BackupMovesNothing(cfg, before, last.existing, last.leave);
      } else {
        ApplyFollows(cfg, before, last);
      }
    }
  }

  // An entry asked for while the agent is down grabs the input at once, unless it already
  // is, and becomes a full one with the next hello, whatever is called in between short
  // of another entry or an exit.
  lemma AwaitedUpgradeCompletes(cfg: Config, c: Controller, asked: Env, ops: seq<Op>, env: Env)
    requires Ownership.Exclusive(cfg, c) && c.ga.Down? && !c.io.FullEntry?
    requires forall i :: 0 <= i < |ops| ==> !EndsWaiting(cfg, AwaitingUpgrade, ops[i])
    ensures Grabbed(IoAttach(cfg, c, asked).input)
    ensures GaHello(cfg, ApplyAll(cfg, IoAttach(cfg, c, asked), ops), env).0.io.FullEntry?
  {
    UpgradeIsAwaited(cfg, c, asked);
    UpgradeWaits(cfg, IoAttach(cfg, c, asked), ops);
    HelloCompletesUpgrade(cfg, ApplyAll(cfg, IoAttach(cfg, c, asked), ops), env);
  }

  lemma UpgradeIsAwaited(cfg: Config, c: Controller, asked: Env)
    requires Ownership.Exclusive(cfg, c) && c.ga.Down? && !c.io.FullEntry?
    ensures var r := IoAttach(cfg, c, asked); r.io.AwaitingUpgrade? && r.ga.Down? && Grabbed(r.input)
  {
    ApplyFollows(cfg, c, OpIoAttach(asked));
    Ownership.IoAttachExclusive(cfg, c, asked);
  }

  lemma HelloCompletesUpgrade(cfg: Config, c: Controller, env: Env)
    requires c.io.AwaitingUpgrade?
    ensures GaHello(cfg, c, env).0.io.FullEntry?
  {
    HelloFollows(cfg, c, env);
  }

  // ----- control requests -----

  // The state in which a request leaves the driver, for a connection without a temporary
  // entry.
  lemma RequestSwitches(cfg: Config, c: Controller, id: nat, req: ControlCmdIn, env: Env)
    ensures var r := Apply(cfg, c, D.RequestOp(false, id, req, env)).io;
            && (req.ForceIoEntry? ==> r.FullEntry?)
            && (req.IoEntry? && AgentThere(c.ga) ==> r.FullEntry?)
            && (req.IoEntry? && c.ga.Down? ==> r.AwaitingUpgrade?)
            && (req.TryIoEntry? ==> r == if AgentThere(c.ga) then FullEntry else c.io)
            && (req.LightEntry? && !Asleep(c.ga) && c.io.Detached? ==> r.LightEntry?)
            && (req.IoExit? ==> r.Detached?)
            && (req.TemporaryLightEntry? && AgentThere(c.ga) && c.io.Detached? ==> r == IoState.TemporaryLightEntry(id))
  {
    var op := D.RequestOp(false, id, req, env);
    if !op.OpBackup? { ApplyFollows(cfg, c, op); }
  }

  // The other requests leave the entry alone and tell the agent, the machine or the disks.
  lemma RequestTells(cfg: Config, c: Controller, id: nat, req: ControlCmdIn, env: Env)
    requires req.Shutdown? || req.Suspend? || req.EnterBackupMode? || req.LeaveBackupMode?
    ensures var r := Apply(cfg, c, D.RequestOp(false, id, req, env));
            && r.io == c.io
            && (req.Shutdown? ==>
                  if AgentThere(c.ga) then r.clientpipe == c.clientpipe + [GaCmdOut.Shutdown]
                  else r.monitor == c.monitor + [SystemPowerdown])
            && (req.Suspend? && !Asleep(c.ga) ==> r.clientpipe == c.clientpipe + [GaCmdOut.Suspend])
            && (req.Suspend? && !c.ga.Suspended? ==> r.suspendSenders == c.suspendSenders + [c.waiters])
            && (req.EnterBackupMode? || req.LeaveBackupMode? ==>
                  forall i :: |c.monitor| <= i < |r.monitor| ==>
                    if req.LeaveBackupMode? then r.monitor[i].CommitSnapshot? else r.monitor[i].TakeSnapshot?)
            && (req.EnterBackupMode? || req.LeaveBackupMode? ==>
                  |r.monitor| == |c.monitor| + |SnapshotDisks(cfg.snapshots, env.existing, req.LeaveBackupMode?)|)
  {
    var op := D.RequestOp(false, id, req, env);
    if !op.OpBackup? { ApplyFollows(cfg, c, op); }
  }

  // A connection with a temporary entry gives it up with whatever it asks for, and is
  // closed unless that was to exit; one without is closed only if it cannot get one.
  lemma ConnectionFollows(cfg: Config, c: Controller, conn: D.Connection, id: nat, req: ControlCmdIn, env: Env)
    requires conn.open && conn.waiting.None?
    ensures conn.tempEntry ==> !Apply(cfg, c, D.RequestOp(true, id, req, env)).io.TemporaryLightEntry?
    ensures var after := D.AfterRequest(conn, c, req);
            var entered := req.TemporaryLightEntry? && AgentThere(c.ga) && c.io.Detached?;
            && (after.open <==> if conn.tempEntry then req.IoExit? else req.TemporaryLightEntry? ==> entered)
            && (after.tempEntry <==> if conn.tempEntry then !req.IoExit? else entered)
            && after.waiting == (if !conn.tempEntry && req.Suspend? && !c.ga.Suspended? then Some(c.waiters) else None)
            && after.forwarders == conn.forwarders + (if !conn.tempEntry && entered then 1 else 0)
            && after.announced == conn.announced + (if !conn.tempEntry && entered then [TemporaryLightAttached] else [])
  {
    if conn.tempEntry { ApplyFollows(cfg, c, OpTemporaryExit); }
  }

  // While it has a temporary entry, a connection can do nothing but end one.
  lemma TemporaryOnlyExits(cfg: Config, w: D.World, id: nat, req: ControlCmdIn, env: Env)
    requires D.Enabled(w, D.Request(id, req, env)) && w.conns[id].tempEntry
    ensures var r := D.Step(cfg, w, D.Request(id, req, env)).h.c;
            && !r.io.TemporaryLightEntry? && r.ga == w.h.c.ga
            && (!w.h.c.io.TemporaryLightEntry? ==> r == w.h.c)
  {
    ApplyFollows(cfg, w.h.c, OpTemporaryExit);
  }

  // Otherwise a request makes its call, and the connection waits, enters or closes with it.
  lemma RequestIsCalled(cfg: Config, w: D.World, id: nat, req: ControlCmdIn, env: Env)
    requires D.Enabled(w, D.Request(id, req, env))
    ensures var r := D.Step(cfg, w, D.Request(id, req, env));
            && id in r.conns && r.conns[id] == D.AfterRequest(w.conns[id], w.h.c, req)
            && (!w.conns[id].tempEntry ==> r.h.c == Apply(cfg, w.h.c, D.RequestOp(false, id, req, env)))
            && forall other :: other in w.conns && other != id ==>
                 other in r.conns && r.conns[other] == w.conns[other]
  {
  }

  // ----- messages of the agent -----

  lemma MessageSwitches(cfg: Config, w: D.World, msg: D.GaCmdIn, env: Env)
    ensures var c, r := w.h.c, D.Step(cfg, w, D.Message(msg, env)).h.c;
            match msg
            case ReportBoot => r.ga.Up? && !r.io.AwaitingUpgrade?
            case Suspending => r.ga.Suspending? && r.io.Detached?
            case Pong => r == c.(ga := if c.ga.Pinging? then Up else c.ga)
            case HotKey(id) => r == GaHotkey(cfg, c, id, env)
            case MouseEdged(x, y) =>
              if c.io.TemporaryLightEntry? then
                r == c.(control := c.control + [(c.io.sender, ControlCmdOut.MouseEdged(x, y))])
              else r == c
            case Unrelated => r == c
  {
    if msg.ReportBoot? || msg.Suspending? { ApplyFollows(cfg, w.h.c, D.MessageOp(msg, env).value); }
  }

  lemma LocalHotkeyRuns(cfg: Config, w: D.World, index: nat, env: Env)
    ensures D.Step(cfg, w, D.LocalHotKey(index, env)).h.c == GaHotkey(cfg, w.h.c, index, env)
  {
  }

  // ----- the remaining events -----

  lemma MachineReports(cfg: Config, w: D.World)
    ensures var c := D.Step(cfg, w, D.MachineSuspended).h.c; c.ga.Suspended? && c.suspendSenders == []
  {
  }

  // A tick pings, or gives the agent up, or finds its timer unneeded.
  lemma TickPings(cfg: Config, w: D.World)
    requires w.timers > 0
    ensures var r := D.Step(cfg, w, D.Tick);
            && r.h.c.ga == (if w.h.c.ga.Up? then Pinging else if w.h.c.ga.Pinging? then Down else w.h.c.ga)
            && r.timers == if w.h.c.ga.Up? then w.timers else w.timers - 1
  {
    ApplyFollows(cfg, w.h.c, OpPing);
  }

  lemma TerminationShutsDown(cfg: Config, w: D.World)
    ensures var c, r := w.h.c, D.Step(cfg, w, D.Terminate).h.c;
            if AgentThere(c.ga) then r.clientpipe == c.clientpipe + [GaCmdOut.Shutdown]
            else r.monitor == c.monitor + [SystemPowerdown]
  {
    ApplyFollows(cfg, w.h.c, OpShutdown);
  }

  lemma ForwarderLeaves(cfg: Config, w: D.World, id: nat)
    requires id in w.conns && w.conns[id].forwarders > 0
    ensures var r := D.Step(cfg, w, D.ForwarderEnds(id));
            && !r.h.c.io.TemporaryLightEntry? && id in r.conns
            && r.conns[id] == w.conns[id].(
                 forwarders := w.conns[id].forwarders - 1,
                 announced := w.conns[id].announced + [TemporaryLightDetached])
  {
    ApplyFollows(cfg, w.h.c, OpTemporaryExit);
  }

  // A sleep signal asks the agent to suspend unless it already is, or is about to be.
  lemma SleepAsks(cfg: Config, w: D.World)
    requires w.awaiting.None?
    ensures var c, r := w.h.c, D.Step(cfg, w, D.PrepareForSleep(true));
            && r.h.c.clientpipe == c.clientpipe + (if Asleep(c.ga) then [] else [GaCmdOut.Suspend])
            && r.awaiting == if c.ga.Suspended? then None else Some(c.waiters)
  {
    ApplyFollows(cfg, w.h.c, OpSuspend);
  }
}
