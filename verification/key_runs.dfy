/** Runs of key events with tracked modifiers, among calls from elsewhere. */
module KeyRuns {
  import opened Messages
  import opened ControllerModel
  import opened MonitorModel
  import opened Hotkeys
  import opened InputHandling
  import HeldKeys
  import Ownership

  // One action of the mouse is a command with several pointer events.
  datatype Event =
    | Call(op: Op)
    | Key(code: nat, down: bool, env: nat -> Env)
    | Pointers(count: nat)

  datatype State = State(c: Controller, modifiers: seq<Modifier>)

  function Motion(count: nat): seq<InputEvent> {
    seq(count, _ => InputEvent.Pointer)
  }

  function Step(cfg: Config, tables: KeyTables, s: State, e: Event): State {
    match e
    case Call(op) => s.(c := Apply(cfg, s.c, op))
    case Key(code, down, env) =>
      State(
        OnKey(cfg, tables, s.modifiers, s.c, code, down, env),
        if tables.linux(code).None? then s.modifiers else NextModifiers(s.modifiers, tables.linux(code).value, down))
    case Pointers(count) => s.(c := SendMonitor(s.c, InputSendEvent(Motion(count))))
  }

  function Run(cfg: Config, tables: KeyTables, events: seq<Event>): State {
    if events == [] then State(INITIAL, [])
    else Step(cfg, tables, Run(cfg, tables, events[..|events| - 1]), events[|events| - 1])
  }

  // ----- the modifiers are those of the key events -----

  function KeyEvents(tables: KeyTables, events: seq<Event>): seq<KeyEvent> {
    if events == [] then []
    else
      var last := events[|events| - 1];
      KeyEvents(tables, events[..|events| - 1])
      + (if last.Key? && tables.linux(last.code).Some? then
           [KeyEvent(tables.linux(last.code).value, last.down)]
         else [])
  }

  lemma {:induction false} ModifiersAreTracked(cfg: Config, tables: KeyTables, events: seq<Event>)
    ensures Run(cfg, tables, events).modifiers == ModifiersAfter(KeyEvents(tables, events))
  {
    if events != [] {
      var init, last := events[..|events| - 1], events[|events| - 1];
      ModifiersAreTracked(cfg, tables, init);
      if last.Key? && tables.linux(last.code).Some? {
        var next := KeyEvent(tables.linux(last.code).value, last.down);
        assert (KeyEvents(tables, init) + [next])[..|KeyEvents(tables, init)|] == KeyEvents(tables, init);
      } else {
        assert KeyEvents(tables, events) == KeyEvents(tables, init);
      }
    }
  }

  // ----- a key event is hotkeys or one forwarded key -----

  predicate IsForwarded(cfg: Config, tables: KeyTables, held: seq<Modifier>, code: nat, down: bool) {
    && tables.linux(code).Some?
    && Triggered(Bindings(cfg.hotkeys), held, tables.linux(code).value, down) == []
    && tables.qcode(tables.linux(code).value).Some?
  }

  lemma {:induction false} HotkeysAreCalls(cfg: Config, c: Controller, hotkeys: seq<nat>, env: nat -> Env)
    returns (steps: seq<HeldKeys.Event>)
    ensures |steps| == |hotkeys|
    ensures forall i :: 0 <= i < |steps| ==> steps[i] == HeldKeys.Call(OpHotkey(hotkeys[i], env(i)))
    ensures HeldKeys.RunFrom(cfg, c, steps) == RunHotkeys(cfg, c, hotkeys, env)
  {
    steps := [];
    if hotkeys != [] {
      var last := |hotkeys| - 1;
      var before := HotkeysAreCalls(cfg, c, hotkeys[..last], env);
      steps := before + [HeldKeys.Call(OpHotkey(hotkeys[last], env(last)))];
      assert steps[..last] == before;
    }
  }

  // This hotkey is bound to the pressed key, with modifiers that are all held.
  predicate IsHotkeyFor(cfg: Config, held: seq<Modifier>, key: Hotkeys.Key, down: bool, i: nat) {
    && down && ModifierOf(key).None? && i < |cfg.hotkeys| && cfg.hotkeys[i].key.key == key
    && forall m :: m in cfg.hotkeys[i].key.modifiers ==> m in held
  }

  // The key that is forwarded is the one pressed or released; otherwise the calls are those
  // of the matching hotkeys in order.
  lemma KeyIsCallsOrForward(
    cfg: Config, tables: KeyTables, held: seq<Modifier>, c: Controller, code: nat, down: bool, env: nat -> Env)
    returns (hotkeys: seq<nat>, steps: seq<HeldKeys.Event>)
    requires tables.linux(code).Some?
    ensures var key := tables.linux(code).value;
            && (forall i: nat :: i in hotkeys <==> IsHotkeyFor(cfg, held, key, down, i))
            && (forall i, j :: 0 <= i < j < |hotkeys| ==> hotkeys[i] < hotkeys[j])
            && HeldKeys.RunFrom(cfg, c, steps) == OnKey(cfg, tables, held, c, code, down, env)
            && (IsForwarded(cfg, tables, held, code, down) <==> hotkeys == [] && tables.qcode(key).Some?)
            && if IsForwarded(cfg, tables, held, code, down) then
                 steps == [HeldKeys.Forward([InputEvent.Key(tables.qcode(key).value, down)])]
               else
                 && |steps| == |hotkeys|
                 && forall i :: 0 <= i < |steps| ==> steps[i] == HeldKeys.Call(OpHotkey(hotkeys[i], env(i)))
  {
    steps := [];
    var key := tables.linux(code).value;
    hotkeys := Triggered(Bindings(cfg.hotkeys), held, key, down);
    TriggeredAreMatched(Bindings(cfg.hotkeys), held, key, down);
    if IsForwarded(cfg, tables, held, code, down) {
      steps := [HeldKeys.Forward([InputEvent.Key(tables.qcode(key).value, down)])];
      assert steps[..0] == [];
      assert HeldKeys.RunFrom(cfg, c, []) == c;
    } else if hotkeys != [] {
      steps := HotkeysAreCalls(cfg, c, hotkeys, env);
    }
  }

  // Releasing a key calls no hotkey: it is forwarded if the machine knows the key.
  lemma ReleaseCallsNothing(
    cfg: Config, tables: KeyTables, held: seq<Modifier>, c: Controller, code: nat, env: nat -> Env)
    ensures var r := OnKey(cfg, tables, held, c, code, false, env);
            if tables.linux(code).Some? && tables.qcode(tables.linux(code).value).Some? then
              r == SendMonitor(c, InputSendEvent([InputEvent.Key(tables.qcode(tables.linux(code).value).value, false)]))
            else
              r == c
  {
    if tables.linux(code).Some? {
      assert Triggered(Bindings(cfg.hotkeys), held, tables.linux(code).value, false) == [];
    }
  }

  // ----- no key stays pressed -----

  // A call that replaces a temporary entry in which a key is held, or a press forwarded
  // outside the light states.
  predicate LeavesKeyHeld(cfg: Config, tables: KeyTables, s: State, e: Event) {
    match e
    case Call(op) => HeldKeys.LeavesKeysHeld(s.c, HeldKeys.Call(op))
    case Key(code, down, _) =>
      down && !Ownership.IsLight(s.c.io) && IsForwarded(cfg, tables, s.modifiers, code, down)
    case Pointers(_) => false
  }

  // Hotkeys leave no key held, whatever they do.
  lemma {:induction false} HotkeysKeepNoneHeld(cfg: Config, c: Controller, steps: seq<HeldKeys.Event>)
    requires HeldKeys.NoneHeld(c)
    requires forall i :: 0 <= i < |steps| ==> steps[i].Call? && steps[i].op.OpHotkey?
    ensures HeldKeys.NoneHeld(HeldKeys.RunFrom(cfg, c, steps))
  {
    if steps != [] {
      var last := |steps| - 1;
      HotkeysKeepNoneHeld(cfg, c, steps[..last]);
      HeldKeys.StepKeepsNoneHeld(cfg, HeldKeys.RunFrom(cfg, c, steps[..last]), steps[last]);
    }
  }

  lemma KeyKeepsNoneHeld(cfg: Config, tables: KeyTables, s: State, e: Event)
    requires HeldKeys.NoneHeld(s.c) && e.Key?
    ensures HeldKeys.NoneHeld(Step(cfg, tables, s, e).c) <==> !LeavesKeyHeld(cfg, tables, s, e)
  {
    if tables.linux(e.code).None? {
      return;
    }
    var hotkeys, steps := KeyIsCallsOrForward(cfg, tables, s.modifiers, s.c, e.code, e.down, e.env);
    if IsForwarded(cfg, tables, s.modifiers, e.code, e.down) {
      assert steps[..0] == [];
      assert HeldKeys.RunFrom(cfg, s.c, []) == s.c;
      HeldKeys.StepKeepsNoneHeld(cfg, s.c, steps[0]);
      OneKeyHeld(tables.qcode(tables.linux(e.code).value).value, e.down);
    } else {
      HotkeysKeepNoneHeld(cfg, s.c, steps);
    }
  }

  lemma OneKeyHeld(key: Qcode, down: bool)
    ensures HoldKeys({}, [InputEvent.Key(key, down)]) == if down then {key} else {}
  {
    assert [InputEvent.Key(key, down)][..0] == [];
  }

  lemma {:induction false} MotionHoldsNothing(count: nat)
    ensures HoldKeys({}, Motion(count)) == {}
  {
    if count > 0 {
      assert Motion(count)[..count - 1] == Motion(count - 1);
      MotionHoldsNothing(count - 1);
    }
  }

  lemma StepKeepsNoneHeld(cfg: Config, tables: KeyTables, s: State, e: Event)
    requires HeldKeys.NoneHeld(s.c)
    ensures HeldKeys.NoneHeld(Step(cfg, tables, s, e).c) <==> !LeavesKeyHeld(cfg, tables, s, e)
  {
    match e
    case Call(op) => HeldKeys.StepKeepsNoneHeld(cfg, s.c, HeldKeys.Call(op));
    case Key(_, _, _) => KeyKeepsNoneHeld(cfg, tables, s, e);
    case Pointers(count) =>
      MotionHoldsNothing(count);
      HeldKeys.StepKeepsNoneHeld(cfg, s.c, HeldKeys.Forward(Motion(count)));
  }

  lemma {:induction false} NoneHeldUnlessLeft(cfg: Config, tables: KeyTables, events: seq<Event>)
    requires forall i :: 0 <= i < |events| ==> !LeavesKeyHeld(cfg, tables, Run(cfg, tables, events[..i]), events[i])
    ensures HeldKeys.NoneHeld(Run(cfg, tables, events).c)
  {
    if events != [] {
      var n := |events| - 1;
      forall i | 0 <= i < n ensures !LeavesKeyHeld(cfg, tables, Run(cfg, tables, events[..n][..i]), events[..n][i]) {
        assert events[..n][..i] == events[..i];
      }
      NoneHeldUnlessLeft(cfg, tables, events[..n]);
      StepKeepsNoneHeld(cfg, tables, Run(cfg, tables, events[..n]), events[n]);
    }
  }

  // Over every run of key events, mouse events and calls without such an event: once the
  // machine has executed the queue and the driver is in no light state, the machine sees
  // no key pressed.
  lemma NoKeyStaysPressed(cfg: Config, tables: KeyTables, events: seq<Event>, outcomes: seq<Outcome>)
    requires forall i :: 0 <= i < |events| ==> !LeavesKeyHeld(cfg, tables, Run(cfg, tables, events[..i]), events[i])
    requires var c := Run(cfg, tables, events).c;
             |outcomes| == |c.monitor| && AllSucceed(IDLE, c.monitor, outcomes) && !Ownership.IsLight(c.io)
    ensures var m := HandleAll(IDLE, Run(cfg, tables, events).c.monitor, outcomes);
            m.held == {} && Pressed(m.delivered) == {}
  {
    NoneHeldUnlessLeft(cfg, tables, events);
    HeldKeys.ExecutedLeavesNone(Run(cfg, tables, events).c, outcomes);
  }
}
