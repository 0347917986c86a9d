/** Keyboard events of the light entry: hotkeys for the driver, other keys for the machine. */
module InputHandling {
  import opened Messages
  import opened Hotkeys
  import M = ControllerModel
  import N = MonitorModel
  import Controllers

  function Bindings(hotkeys: seq<M.HotKey>): seq<KeyBinding> {
    seq(|hotkeys|, i requires 0 <= i < |hotkeys| => hotkeys[i].key)
  }

  // Each hotkey finds the surroundings as they are when its turn comes.
  function RunHotkeys(cfg: M.Config, c: M.Controller, hotkeys: seq<nat>, env: nat -> M.Env): M.Controller {
    if hotkeys == [] then c
    else
      var last := |hotkeys| - 1;
      M.GaHotkey(cfg, RunHotkeys(cfg, c, hotkeys[..last], env), hotkeys[last], env(last))
  }

  // A key event runs the hotkeys it matches; only if there are none it is forwarded.
  function OnKey(
    cfg: M.Config, tables: KeyTables, held: seq<Modifier>, c: M.Controller, code: nat, down: bool, env: nat -> M.Env
  ): M.Controller {
    if tables.linux(code).None? then c
    else
      var key := tables.linux(code).value;
      var hotkeys := Triggered(Bindings(cfg.hotkeys), held, key, down);
      if hotkeys != [] then RunHotkeys(cfg, c, hotkeys, env)
      else if tables.qcode(key).None? then c
      else M.SendMonitor(c, InputSendEvent([InputEvent.Key(tables.qcode(key).value, down)]))
  }

  class InputHandler {
    const keyboard: KeyboardState
    const tables: KeyTables

    constructor (bindings: seq<KeyBinding>, tables: KeyTables)
      ensures fresh(keyboard) && keyboard.modifiers == [] && keyboard.bindings == bindings && this.tables == tables
    {
      this.tables := tables;
      keyboard := new KeyboardState(bindings);
    }

    method OnKeyEvent(controller: Controllers.Controller, code: nat, down: bool, env: nat -> M.Env)
      requires controller.Valid() && keyboard.bindings == Bindings(controller.machine.hotkeys)
      modifies keyboard, controller, controller.input
      ensures controller.Valid()
      ensures controller.State() ==
              OnKey(controller.machine, tables, old(keyboard.modifiers), old(controller.State()), code, down, env)
      ensures tables.linux(code).Some? ==>
                keyboard.modifiers == NextModifiers(old(keyboard.modifiers), tables.linux(code).value, down)
    {
      var resolution := keyboard.InputLinux(tables, code, down);
      if resolution.None? {
        return;
      }
      var KeyResolution(hotkeys, qcode) := resolution.value;
      RunAll(controller, hotkeys, env);
      if hotkeys != [] {
        return;
      }
      if qcode.Some? {
        controller.SendMonitor(InputSendEvent([InputEvent.Key(qcode.value, down)]));
      }
    }

    method RunAll(controller: Controllers.Controller, hotkeys: seq<nat>, env: nat -> M.Env)
      requires controller.Valid()
      modifies controller, controller.input
      ensures controller.Valid()
      ensures controller.State() == RunHotkeys(controller.machine, old(controller.State()), hotkeys, env)
    {
      var i := 0;
      while i < |hotkeys|
        invariant i <= |hotkeys| && controller.Valid()
        invariant controller.State() == RunHotkeys(controller.machine, old(controller.State()), hotkeys[..i], env)
      {
        assert hotkeys[..i + 1][..i] == hotkeys[..i];
        controller.GaHotkey(hotkeys[i], env(i));
        i := i + 1;
      }
      assert hotkeys[..i] == hotkeys;
    }
  }

  // ----- exiting by hotkey leaves no key pressed -----

  ghost predicate OnlyExits(cfg: M.Config, hotkeys: seq<nat>) {
    forall i :: 0 <= i < |hotkeys| ==>
      hotkeys[i] < |cfg.hotkeys| && cfg.hotkeys[hotkeys[i]].action == M.HotKeyAction.Do(M.Action.IoExit)
  }

  lemma {:induction false} ExitsDetach(cfg: M.Config, c: M.Controller, hotkeys: seq<nat>, env: nat -> M.Env)
    requires OnlyExits(cfg, hotkeys) && hotkeys != []
    requires c.io.LightEntry? || c.io.AwaitingUpgrade?
    ensures RunHotkeys(cfg, c, hotkeys, env).io.Detached?
    ensures RunHotkeys(cfg, c, hotkeys, env).input == c.input + [M.Release]
    ensures RunHotkeys(cfg, c, hotkeys, env).monitor == c.monitor + [ReleaseAllKeys]
  {
    var last := |hotkeys| - 1;
    if last == 0 {
      assert RunHotkeys(cfg, c, hotkeys[..last], env) == c;
    } else {
      ExitsDetach(cfg, c, hotkeys[..last], env);
    }
  }

  // The hotkeys that a press of this key triggers.
  function HotkeysOf(cfg: M.Config, tables: KeyTables, held: seq<Modifier>, code: nat): seq<nat>
    requires tables.linux(code).Some?
  {
    Triggered(Bindings(cfg.hotkeys), held, tables.linux(code).value, true)
  }

  // A press that matches only exit hotkeys during a light entry releases the devices and
  // all keys, and is itself not forwarded.
  lemma ExitPressDetaches(
    cfg: M.Config, tables: KeyTables, held: seq<Modifier>, c: M.Controller, code: nat, env: nat -> M.Env)
    requires c.io.LightEntry? || c.io.AwaitingUpgrade?
    requires tables.linux(code).Some? && HotkeysOf(cfg, tables, held, code) != []
    requires OnlyExits(cfg, HotkeysOf(cfg, tables, held, code))
    ensures OnKey(cfg, tables, held, c, code, true, env).io.Detached?
    ensures OnKey(cfg, tables, held, c, code, true, env).input == c.input + [M.Release]
    ensures OnKey(cfg, tables, held, c, code, true, env).monitor == c.monitor + [ReleaseAllKeys]
  {
    ExitsDetach(cfg, c, HotkeysOf(cfg, tables, held, code), env);
  }

  // Once the machine has executed the queue up to and including such a press, it sees no
  // key pressed, nor does the driver believe one held.
  lemma ExitPressLeavesNoKeys(
    cfg: M.Config, tables: KeyTables, held: seq<Modifier>, c: M.Controller, code: nat, env: nat -> M.Env,
    queue: seq<QmpCommand>, outcomes: seq<N.Outcome>)
    requires c.io.LightEntry? || c.io.AwaitingUpgrade?
    requires tables.linux(code).Some? && HotkeysOf(cfg, tables, held, code) != []
    requires OnlyExits(cfg, HotkeysOf(cfg, tables, held, code))
    requires queue == OnKey(cfg, tables, held, c, code, true, env).monitor
    requires |outcomes| == |queue| && N.AllSucceed(N.IDLE, queue, outcomes)
    ensures N.Pressed(N.HandleAll(N.IDLE, queue, outcomes).delivered) == {}
    ensures N.HandleAll(N.IDLE, queue, outcomes).held == {}
  {
    ExitPressDetaches(cfg, tables, held, c, code, env);
    N.HeldKeysArePressed(N.IDLE, queue, outcomes);
  }
}
