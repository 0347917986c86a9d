/** How entries are asked for, kept and ended, across the controller's calls. */
module Entries {
  import opened Messages
  import opened ControllerModel
  import opened Histories
  import Ownership
  import Usb

  // ----- what a hello does -----

  function Greeted(cfg: Config, c: Controller): Controller {
    c.(clientpipe := c.clientpipe + Registrations(cfg.hotkeys), ga := Up)
  }

  // Whatever a hello completes, it attaches once.
  lemma HelloAttachesOnce(cfg: Config, c: Controller, env: Env)
    ensures GaHello(cfg, c, env).0 ==
            if c.io.AwaitingUpgrade? || c.ga == Resuming(true) then IoForceAttach(cfg, Greeted(cfg, c), env)
            else if c.ga == Resuming(false) then LightAttach(Greeted(cfg, c))
            else Greeted(cfg, c)
  {
    var greeted := GreetAgent(cfg, c, env);
    assert greeted == if c.io.AwaitingUpgrade? then IoForceAttach(cfg, Greeted(cfg, c), env) else Greeted(cfg, c);
    assert greeted.io.FullEntry? ==> IoForceAttach(cfg, greeted, env) == greeted && LightAttach(greeted) == greeted;
  }

  lemma {:induction false} RegistrationsAreHotkeys(hotkeys: seq<HotKey>)
    ensures |Registrations(hotkeys)| == |hotkeys|
    ensures forall i :: 0 <= i < |hotkeys| ==>
              Registrations(hotkeys)[i] ==
              RegisterHotKey(i, hotkeys[i].key.ToWindows().0, hotkeys[i].key.ToWindows().1)
  {
    if hotkeys != [] { RegistrationsAreHotkeys(hotkeys[..|hotkeys| - 1]); }
  }

  // A hello first registers every hotkey, in order, under the index by which the agent
  // will report it, with the mask and key of its binding.
  lemma HelloRegistersHotkeys(cfg: Config, c: Controller, env: Env, i: nat)
    requires i < |cfg.hotkeys|
    ensures var r := GaHello(cfg, c, env).0;
            var key := cfg.hotkeys[i].key;
            && |c.clientpipe| + |cfg.hotkeys| <= |r.clientpipe| && c.clientpipe <= r.clientpipe
            && r.clientpipe[|c.clientpipe| + i] == RegisterHotKey(i, key.ToWindows().0, key.ToWindows().1)
  {
    RegistrationsAreHotkeys(cfg.hotkeys);
    var sent := c.clientpipe + Registrations(cfg.hotkeys);
    assert sent <= GreetAgent(cfg, c, env).clientpipe;
    assert sent <= GaHello(cfg, c, env).0.clientpipe;
  }

  // ----- an entry asked for during suspension -----

  predicate EndsWakeUp(op: Op) {
    op.OpHello? || op.OpSuspending? || op.OpQemuSuspended?
  }

  lemma WakeUpGoesOn(cfg: Config, c: Controller, op: Op)
    requires c.ga.Resuming? && !EndsWakeUp(op)
    ensures Apply(cfg, c, op).ga == c.ga
  {
    if op.OpHotkey? { HotkeyWakesAtMost(cfg, c, op.index, op.env); }
  }

  lemma {:induction false} WakeUpLasts(cfg: Config, c: Controller, ops: seq<Op>)
    requires c.ga.Resuming? && forall i :: 0 <= i < |ops| ==> !EndsWakeUp(ops[i])
    ensures ApplyAll(cfg, c, ops).ga == c.ga
    ensures Wakeups(ApplyAll(cfg, c, ops).monitor) == Wakeups(c.monitor)
  {
    if ops != [] {
      WakeUpLasts(cfg, c, ops[..|ops| - 1]);
      ApplySends(cfg, ApplyAll(cfg, c, ops[..|ops| - 1]), ops[|ops| - 1]);
      WakeUpGoesOn(cfg, ApplyAll(cfg, c, ops[..|ops| - 1]), ops[|ops| - 1]);
    }
  }

  // What a hello completes: a full wake-up ends in full entry, a light one not detached.
  lemma HelloCompletesWakeUp(cfg: Config, c: Controller, env: Env)
    requires c.ga.Resuming?
    ensures c.ga.full ==> GaHello(cfg, c, env).0.io.FullEntry?
    ensures !c.ga.full ==> !GaHello(cfg, c, env).0.io.Detached?
    ensures !c.ga.full && c.io.AwaitingUpgrade? ==> GaHello(cfg, c, env).0.io.FullEntry?
  {
  }

  // A wake-up, once sent, is completed by the next hello and is the only one until then.
  lemma WakeUpCompletes(cfg: Config, c: Controller, ops: seq<Op>, env: Env)
    requires c.ga.Resuming? && forall i :: 0 <= i < |ops| ==> !EndsWakeUp(ops[i])
    ensures var r := GaHello(cfg, ApplyAll(cfg, c, ops), env).0;
            && Wakeups(r.monitor) == Wakeups(c.monitor)
            && !r.io.Detached? && (c.ga.full ==> r.io.FullEntry?)
  {
    WakeUpLasts(cfg, c, ops);
    HelloCompletesWakeUp(cfg, ApplyAll(cfg, c, ops), env);
    HelloSends(cfg, ApplyAll(cfg, c, ops), env);
  }

  // An entry asked for while the machine is suspended wakes it up. Whatever is called
  // until the agent says hello, short of the machine going to sleep again, the entry is
  // in place afterwards and no other wake-up has been sent.
  lemma EntrySurvivesWakeUp(cfg: Config, c: Controller, asked: Env, ops: seq<Op>, env: Env)
    requires c.ga.Suspended? && forall i :: 0 <= i < |ops| ==> !EndsWakeUp(ops[i])
    ensures var r := GaHello(cfg, ApplyAll(cfg, IoAttach(cfg, c, asked), ops), env).0;
            r.io.FullEntry? && Wakeups(r.monitor) == Wakeups(c.monitor) + 1
    ensures var r := GaHello(cfg, ApplyAll(cfg, LightAttach(c), ops), env).0;
            !r.io.Detached? && Wakeups(r.monitor) == Wakeups(c.monitor) + 1
  {
    IoAttachSends(cfg, c, asked);
    LightAttachSends(c);
    WakeUpCompletes(cfg, IoAttach(cfg, c, asked), ops, env);
    WakeUpCompletes(cfg, LightAttach(c), ops, env);
  }

  // ----- temporary entries -----

  // The calls that end one; hotkeys are not among them.
  predicate EndsTemporaryEntry(c: Controller, op: Op) {
    match op
    case OpPing => c.ga.Pinging?
    case OpHello(_) => c.ga == Resuming(true)
    case OpSuspending => true
    case OpIoAttach(_) => c.ga.Up? || c.ga.Pinging?
    case OpTryAttach(_) => c.ga.Up? || c.ga.Pinging?
    case OpForceAttach(_) => true
    case OpIoDetach => true
    case OpTemporaryExit => true
    case _ => false
  }

  // A temporary entry ends by exactly these, in every state the controller can be in.
  lemma TemporaryEntryEndsIff(cfg: Config, c: Controller, op: Op)
    requires Ownership.Consistent(c) && c.io.TemporaryLightEntry?
    ensures Apply(cfg, c, op).io != c.io <==> EndsTemporaryEntry(c, op)
  {
    if op.OpHello? {
      assert GreetAgent(cfg, c, op.env).io == c.io;
    }
  }

  // Only the connection that owns a temporary entry is told anything: every movement of
  // the mouse over the edge, and that a full entry has taken its place.
  lemma OwnerIsTold(cfg: Config, c: Controller, op: Op)
    ensures var r := Apply(cfg, c, op);
            r.control == c.control + (
              if !c.io.TemporaryLightEntry? then []
              else if op.OpMouse? then [(c.io.sender, MouseEdged(op.x, op.y))]
              else if r.io.FullEntry? then [(c.io.sender, TemporaryLightDetached)]
              else [])
  {
    match op
    case OpHello(env) => HelloTells(cfg, c, env);
    case OpHotkey(index, env) =>
      if c.io.TemporaryLightEntry? {
        assert GaHotkey(cfg, c, index, env) == c;
      } else {
        assert IoAttach(cfg, c, env).control == c.control;
        assert IoForceAttach(cfg, c, env).control == c.control;
      }
    case _ =>
  }

  predicate TellsOfFullEntry(c: Controller, r: Controller) {
    r.control ==
    c.control + (if c.io.TemporaryLightEntry? && r.io.FullEntry? then [(c.io.sender, TemporaryLightDetached)] else [])
  }

  lemma HelloTells(cfg: Config, c: Controller, env: Env)
    ensures TellsOfFullEntry(c, GaHello(cfg, c, env).0)
  {
    HelloAttachesOnce(cfg, c, env);
  }

  // ----- keys and modifiers across a change of entry -----

  // The first thing sent to the machine between c and r is that it release all keys.
  predicate StartsWithRelease(c: Controller, r: Controller) {
    |c.monitor| < |r.monitor| && r.monitor[|c.monitor|] == ReleaseAllKeys
  }

  // Leaving the light states has all keys released first, unless a temporary entry is
  // replaced by a full one.
  predicate ReleasesKeys(c: Controller, r: Controller) {
    Ownership.IsLight(c.io) && !Ownership.IsLight(r.io) ==>
      (StartsWithRelease(c, r) <==> !(c.io.TemporaryLightEntry? && r.io.FullEntry?))
  }

  // Entering, and turning a light entry into a full one, has the agent release the
  // modifiers that may be held down in the machine.
  predicate ReleasesModifiers(c: Controller, r: Controller) {
    && c.clientpipe <= r.clientpipe
    && ((c.io.Detached? && !r.io.Detached?) || (!c.io.FullEntry? && r.io.FullEntry?) ==>
          ReleaseModifiers in r.clientpipe[|c.clientpipe|..])
  }

  lemma ForceAttachReleases(cfg: Config, c: Controller, env: Env)
    ensures ReleasesKeys(c, IoForceAttach(cfg, c, env)) && ReleasesModifiers(c, IoForceAttach(cfg, c, env))
  {
    AddsAreAdds(cfg.usb, env.usb, Usb.SortByBus(cfg.usb));
    if !c.io.FullEntry? {
      assert IoForceAttach(cfg, c, env).clientpipe[|c.clientpipe|..] == [ReleaseModifiers];
    }
  }

  lemma LightAttachReleases(c: Controller)
    ensures ReleasesKeys(c, LightAttach(c)) && ReleasesModifiers(c, LightAttach(c))
    ensures c.io.Detached? && !c.ga.Suspending? && !c.ga.Suspended? ==>
              ReleaseModifiers in LightAttach(c).clientpipe[|c.clientpipe|..]
  {
    if !c.ga.Suspending? && !c.ga.Suspended? && c.io.Detached? {
      assert LightAttach(c).clientpipe[|c.clientpipe|..] == [ReleaseModifiers];
    }
  }

  lemma AttachReleases(cfg: Config, c: Controller, env: Env)
    ensures ReleasesKeys(c, IoAttach(cfg, c, env)) && ReleasesModifiers(c, IoAttach(cfg, c, env))
  {
    LightAttachReleases(c);
    ForceAttachReleases(cfg, c, env);
  }

  lemma TemporaryEntryReleases(c: Controller, sender: nat, x: int, y: int)
    ensures ReleasesKeys(c, TemporaryEntry(c, sender, x, y)) && ReleasesModifiers(c, TemporaryEntry(c, sender, x, y))
  {
    if TemporaryEntryPossible(c) {
      assert TemporaryEntry(c, sender, x, y).clientpipe[|c.clientpipe|..] == [SetMousePosition(x, y), ReleaseModifiers];
    }
  }

  lemma HelloReleases(cfg: Config, c: Controller, env: Env)
    ensures ReleasesKeys(c, GaHello(cfg, c, env).0) && ReleasesModifiers(c, GaHello(cfg, c, env).0)
  {
    var up, r := Greeted(cfg, c), GaHello(cfg, c, env).0;
    HelloAttachesOnce(cfg, c, env);
    ForceAttachReleases(cfg, up, env);
    LightAttachReleases(up);
    ReleasesSince(c, up, r);
  }

  lemma ReleasesSince(c: Controller, up: Controller, r: Controller)
    requires up.io == c.io && c.clientpipe <= up.clientpipe && ReleasesModifiers(up, r)
    ensures ReleasesModifiers(c, r)
  {
    if ReleaseModifiers in r.clientpipe[|up.clientpipe|..] {
      var i :| |up.clientpipe| <= i < |r.clientpipe| && r.clientpipe[i] == ReleaseModifiers;
      assert r.clientpipe[|c.clientpipe|..][i - |c.clientpipe|] == ReleaseModifiers;
    }
  }

  lemma DetachReleases(cfg: Config, c: Controller)
    ensures ReleasesKeys(c, IoDetach(cfg, c)) && ReleasesModifiers(c, IoDetach(cfg, c))
  {
  }

  lemma HotkeyReleases(cfg: Config, c: Controller, index: nat, env: Env)
    ensures ReleasesKeys(c, GaHotkey(cfg, c, index, env)) && ReleasesModifiers(c, GaHotkey(cfg, c, index, env))
  {
    AttachReleases(cfg, c, env);
    ForceAttachReleases(cfg, c, env);
    DetachReleases(cfg, c);
  }

  // No call gives up the light states without having the keys released first, except
  // exactly those that replace a temporary entry by a full one; and none enters without
  // having the modifiers released.
  lemma ApplyReleases(cfg: Config, c: Controller, op: Op)
    ensures ReleasesKeys(c, Apply(cfg, c, op)) && ReleasesModifiers(c, Apply(cfg, c, op))
  {
    match op
    case OpPing => DetachReleases(cfg, c.(ga := Down));
    case OpHello(env) => HelloReleases(cfg, c, env);
    case OpSuspending => DetachReleases(cfg, c);
    case OpHotkey(index, env) => HotkeyReleases(cfg, c, index, env);
    case OpIoAttach(env) => AttachReleases(cfg, c, env);
    case OpTryAttach(env) => ForceAttachReleases(cfg, c, env);
    case OpForceAttach(env) => ForceAttachReleases(cfg, c, env);
    case OpLightAttach => LightAttachReleases(c);
    case OpIoDetach => DetachReleases(cfg, c);
    case OpTemporaryEntry(sender, x, y) => TemporaryEntryReleases(c, sender, x, y);
    case OpTemporaryExit => DetachReleases(cfg, c);
    case _ =>
  }

  // When the agent is given up, the devices come back to the host, and a light entry,
  // which needs no agent, stays.
  lemma AgentLossReturnsDevices(cfg: Config, c: Controller, op: Op)
    requires !c.ga.Down? && Apply(cfg, c, op).ga.Down?
    ensures var r := Apply(cfg, c, op);
            && !r.io.FullEntry? && !r.io.TemporaryLightEntry?
            && (c.io.LightEntry? ==> r.io == c.io && r.input == c.input && r.monitor == c.monitor)
  {
    AgentMoves(cfg, c, op);
  }
}
