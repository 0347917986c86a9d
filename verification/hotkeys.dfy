/** Key bindings and the modifier tracking of the light-entry keyboard. */
module Hotkeys {
  import opened Common

  datatype Modifier = Alt | Ctrl | Shift | Win

  const NO_REPEAT: bv32 := 0x4000

  // The discriminant of a modifier, as Windows expects it.
  function Bit(m: Modifier): bv32 {
    match m
    case Alt => 0x0001
    case Ctrl => 0x0002
    case Shift => 0x0004
    case Win => 0x0008
  }

  // A key is its Windows virtual key code.
  type Key = nat

  function ModifierOf(key: Key): Option<Modifier> {
    if key == 0xA4 || key == 0xA5 then Some(Alt)
    else if key == 0xA2 || key == 0xA3 then Some(Ctrl)
    else if key == 0xA0 || key == 0xA1 then Some(Shift)
    else if key == 0x5B || key == 0x5C then Some(Win)
    else None
  }

  datatype KeyBinding = KeyBinding(modifiers: seq<Modifier>, noRepeat: bool, key: Key) {
    predicate Matches(held: seq<Modifier>, pressed: Key) {
      && pressed == key
      && forall i :: 0 <= i < |modifiers| ==> modifiers[i] in held
    }

    function ToWindows(): (bv32, Key) {
      (FoldMask(modifiers, if noRepeat then NO_REPEAT else 0), key)
    }
  }

  function FoldMask(modifiers: seq<Modifier>, sum: bv32): bv32 {
    Fold(SetBit, modifiers, sum)
  }

  function SetBit(mask: bv32, m: Modifier): bv32 {
    mask | Bit(m)
  }

  function Fold<A>(f: (A, Modifier) -> A, modifiers: seq<Modifier>, a: A): A {
    if modifiers == [] then a else Fold(f, modifiers[1..], f(a, modifiers[0]))
  }

  // What each step adds for one modifier only, the whole adds if that modifier occurs.
  lemma {:induction false} FoldAdds<A(!new)>(
    f: (A, Modifier) -> A, modifiers: seq<Modifier>, a: A, has: A -> bool, m: Modifier)
    requires forall x, n :: has(f(x, n)) <==> has(x) || m == n
    ensures has(Fold(f, modifiers, a)) <==> has(a) || m in modifiers
  {
    if modifiers != [] {
      FoldAdds(f, modifiers[1..], f(a, modifiers[0]), has, m);
    }
  }

  // What no step changes, the whole does not change.
  lemma {:induction false} FoldKeeps<A(!new), B>(f: (A, Modifier) -> A, modifiers: seq<Modifier>, a: A, part: A -> B)
    requires forall x, n :: part(f(x, n)) == part(x)
    ensures part(Fold(f, modifiers, a)) == part(a)
  {
    if modifiers != [] {
      FoldKeeps(f, modifiers[1..], f(a, modifiers[0]), part);
    }
  }

  // ----- the masks say the same as the lists -----

  // The bits that no modifier occupies.
  const OTHER_BITS: bv32 := 0xFFFF_FFF0

  lemma OrThenAnd(a: bv32, b: bv32, c: bv32)
    ensures (a | b) & c == (a & c) | (b & c)
    ensures a | b != 0 <==> a != 0 || b != 0
  {
  }

  lemma BitsAreApart(m: Modifier, n: Modifier)
    ensures Bit(n) & Bit(m) != 0 <==> m == n
    ensures Bit(n) & OTHER_BITS == 0
  {
  }

  predicate Has(mask: bv32, m: Modifier) {
    mask & Bit(m) != 0
  }

  lemma SetBitAdds(mask: bv32, n: Modifier, m: Modifier)
    ensures Has(SetBit(mask, n), m) <==> Has(mask, m) || m == n
  {
    BitsAreApart(m, n);
    OrThenAnd(mask, Bit(n), Bit(m));
    OrThenAnd(mask & Bit(m), Bit(n) & Bit(m), 0);
  }

  lemma SetBitKeeps(mask: bv32, n: Modifier)
    ensures SetBit(mask, n) & OTHER_BITS == mask & OTHER_BITS
  {
    BitsAreApart(n, n);
    OrThenAnd(mask, Bit(n), OTHER_BITS);
  }

  lemma FoldMaskHas(modifiers: seq<Modifier>, sum: bv32, m: Modifier)
    ensures Has(FoldMask(modifiers, sum), m) <==> Has(sum, m) || m in modifiers
  {
    var has := x => Has(x, m);
    forall x: bv32, n: Modifier ensures has(SetBit(x, n)) <==> has(x) || m == n {
      SetBitAdds(x, n, m);
    }
    FoldAdds(SetBit, modifiers, sum, has, m);
  }

  lemma FoldMaskKeeps(modifiers: seq<Modifier>, sum: bv32)
    ensures FoldMask(modifiers, sum) & OTHER_BITS == sum & OTHER_BITS
  {
    var part := (mask: bv32) => mask & OTHER_BITS;
    forall x: bv32, n: Modifier ensures part(SetBit(x, n)) == part(x) {
      SetBitKeeps(x, n);
    }
    FoldKeeps(SetBit, modifiers, sum, part);
  }

  // Containment of masks that use modifier bits only is containment bit by bit.
  lemma ContainedBitwise(a: bv32, b: bv32)
    requires a & OTHER_BITS == 0
    ensures a & b == a <==> forall m :: a & Bit(m) != 0 ==> b & Bit(m) != 0
  {
    if forall m :: a & Bit(m) != 0 ==> b & Bit(m) != 0 {
      assert a & Bit(Alt) != 0 ==> b & Bit(Alt) != 0;
      assert a & Bit(Ctrl) != 0 ==> b & Bit(Ctrl) != 0;
      assert a & Bit(Shift) != 0 ==> b & Bit(Shift) != 0;
      assert a & Bit(Win) != 0 ==> b & Bit(Win) != 0;
    }
  }

  // Setting NO_REPEAT aside loses no modifier and nothing else but it.
  lemma NoRepeatIsApart(mask: bv32, m: Modifier)
    ensures Has(mask & !NO_REPEAT, m) <==> Has(mask, m)
    ensures !Has(NO_REPEAT, m) && !Has(0, m)
    ensures mask & OTHER_BITS == 0 || mask & OTHER_BITS == NO_REPEAT ==> (mask & !NO_REPEAT) & OTHER_BITS == 0
    ensures mask & OTHER_BITS == 0 ==> mask & NO_REPEAT == 0
    ensures mask & OTHER_BITS == NO_REPEAT ==> mask & NO_REPEAT != 0
  {
  }

  // A binding matches exactly when its Windows mask, NO_REPEAT put aside, is
  // contained in the mask of the held modifiers; orders and duplicates are irrelevant.
  lemma MatchesIffMaskContained(b: KeyBinding, held: seq<Modifier>, pressed: Key)
    ensures var wanted := b.ToWindows().0 & !NO_REPEAT;
            b.Matches(held, pressed) <==>
            pressed == b.ToWindows().1 && wanted & FoldMask(held, 0) == wanted
    ensures b.noRepeat <==> b.ToWindows().0 & NO_REPEAT != 0
  {
    var base: bv32 := if b.noRepeat then NO_REPEAT else 0;
    var mask := b.ToWindows().0;
    var wanted := mask & !NO_REPEAT;
    FoldMaskKeeps(b.modifiers, base);
    NoRepeatIsApart(mask, Alt);
    forall m: Modifier
      ensures wanted & Bit(m) != 0 <==> m in b.modifiers
      ensures FoldMask(held, 0) & Bit(m) != 0 <==> m in held
    {
      FoldMaskHas(b.modifiers, base, m);
      FoldMaskHas(held, 0, m);
      NoRepeatIsApart(mask, m);
    }
    ContainedBitwise(wanted, FoldMask(held, 0));
    if forall m :: wanted & Bit(m) != 0 ==> FoldMask(held, 0) & Bit(m) != 0 {
      forall i | 0 <= i < |b.modifiers| ensures b.modifiers[i] in held {
        assert wanted & Bit(b.modifiers[i]) != 0;
      }
    }
  }

  // The left and the right key of each modifier.
  lemma ModifierKeys(key: Key)
    ensures ModifierOf(key) == Some(Shift) <==> key == 0xA0 || key == 0xA1
    ensures ModifierOf(key) == Some(Ctrl) <==> key == 0xA2 || key == 0xA3
    ensures ModifierOf(key) == Some(Alt) <==> key == 0xA4 || key == 0xA5
    ensures ModifierOf(key) == Some(Win) <==> key == 0x5B || key == 0x5C
  {
  }

  // The constants that Windows gives to modifiers.
  lemma WindowsConstants(m: Modifier, key: Key)
    ensures KeyBinding([m], false, key).ToWindows() ==
            (match m case Alt => 1 case Ctrl => 2 case Shift => 4 case Win => 8, key)
    ensures KeyBinding([], true, key).ToWindows() == (0x4000, key)
  {
    assert [m][1..] == [];
    assert Fold(SetBit, [], SetBit(0, m)) == SetBit(0, m);
    assert Fold(SetBit, [m], 0) == SetBit(0, m);
    match m
    case Alt =>
    case Ctrl =>
    case Shift =>
    case Win =>
  }

  // ----- tracking the held modifiers -----

  // The last element takes the place of the removed one.
  function SwapRemove<T>(s: seq<T>, i: nat): seq<T>
    requires i < |s|
  {
    var last := |s| - 1;
    if i == last then s[..last] else s[..last][i := s[last]]
  }

  function NextModifiers(held: seq<Modifier>, key: Key, down: bool): seq<Modifier> {
    match ModifierOf(key)
    case None => held
    case Some(m) =>
      if down then (if m in held then held else held + [m])
      else if m in held then SwapRemove(held, IndexOf(held, m)) else held
  }

  // The indices of the bindings that a press matches, in order.
  function Matching(bindings: seq<KeyBinding>, held: seq<Modifier>, key: Key): (r: seq<nat>)
    ensures forall i :: i in r <==> 0 <= i < |bindings| && bindings[i].Matches(held, key)
    ensures forall i, j :: 0 <= i < j < |r| ==> r[i] < r[j]
  {
    if bindings == [] then []
    else
      var last := |bindings| - 1;
      var init := Matching(bindings[..last], held, key);
      assert forall k :: 0 <= k < |init| ==> init[k] in init;
      init + (if bindings[last].Matches(held, key) then [last] else [])
  }

  function Triggered(bindings: seq<KeyBinding>, held: seq<Modifier>, key: Key, down: bool): seq<nat> {
    if ModifierOf(key).None? && down then Matching(bindings, held, key) else []
  }

  // A press of a key that is no modifier matches the bindings for it whose modifiers are
  // all held; nothing else matches any.
  predicate IsMatched(bindings: seq<KeyBinding>, held: seq<Modifier>, key: Key, down: bool, i: nat) {
    && down && ModifierOf(key).None? && i < |bindings| && bindings[i].key == key
    && forall m :: m in bindings[i].modifiers ==> m in held
  }

  ghost predicate AreThoseMatched(
    bindings: seq<KeyBinding>, held: seq<Modifier>, key: Key, down: bool, hotkeys: seq<nat>)
  {
    && (forall i: nat :: i in hotkeys <==> IsMatched(bindings, held, key, down, i))
    && forall i, j :: 0 <= i < j < |hotkeys| ==> hotkeys[i] < hotkeys[j]
  }

  lemma TriggeredAreMatched(bindings: seq<KeyBinding>, held: seq<Modifier>, key: Key, down: bool)
    ensures AreThoseMatched(bindings, held, key, down, Triggered(bindings, held, key, down))
  {
  }

  type Qcode = string

  // The finite key code tables.
  datatype KeyTables = KeyTables(linux: nat -> Option<Key>, qcode: Key -> Option<Qcode>)

  datatype KeyResolution = KeyResolution(hotkeys: seq<nat>, qcode: Option<Qcode>)

  class KeyboardState {
    var modifiers: seq<Modifier>
    const bindings: seq<KeyBinding>

    constructor (bindings: seq<KeyBinding>)
      ensures modifiers == [] && this.bindings == bindings
    {
      modifiers := [];
      this.bindings := bindings;
    }

    method InputLinux(tables: KeyTables, code: nat, down: bool) returns (r: Option<KeyResolution>)
      modifies this
      ensures tables.linux(code).None? ==> r == None && modifiers == old(modifiers)
      ensures tables.linux(code).Some? ==>
                var key := tables.linux(code).value;
                && modifiers == NextModifiers(old(modifiers), key, down)
                && r == Some(KeyResolution(Triggered(bindings, old(modifiers), key, down), tables.qcode(key)))
      ensures tables.linux(code).Some? ==>
                var key := tables.linux(code).value;
                AreThoseMatched(bindings, old(modifiers), key, down, r.value.hotkeys)
    {
      if tables.linux(code).None? {
        return None;
      }
      var key := tables.linux(code).value;
      var found: seq<nat> := [];
      if ModifierOf(key).Some? {
        var m := ModifierOf(key).value;
        if down {
          if m !in modifiers {
            modifiers := modifiers + [m];
          }
        } else if m in modifiers {
          modifiers := SwapRemove(modifiers, IndexOf(modifiers, m));
        }
      } else if down {
        var i := 0;
        while i < |bindings|
          invariant i <= |bindings|
          invariant found == Matching(bindings[..i], modifiers, key)
        {
          assert bindings[..i + 1][..i] == bindings[..i];
          if bindings[i].Matches(modifiers, key) {
            found := found + [i];
          }
          i := i + 1;
        }
        assert bindings[..i] == bindings;
      }
      r := Some(KeyResolution(found, tables.qcode(key)));
      TriggeredAreMatched(bindings, old(modifiers), key, down);
    }
  }

  // ----- the vector is the set of modifiers last pressed -----

  datatype KeyEvent = KeyEvent(key: Key, down: bool)

  function ModifiersAfter(events: seq<KeyEvent>): seq<Modifier> {
    if events == [] then []
    else
      var last := events[|events| - 1];
      NextModifiers(ModifiersAfter(events[..|events| - 1]), last.key, last.down)
  }

  // The last event on a key of class m was a press.
  ghost predicate LastWasPress(events: seq<KeyEvent>, m: Modifier) {
    exists i :: 0 <= i < |events| && events[i].down && ModifierOf(events[i].key) == Some(m)
      && forall j :: i < j < |events| ==> ModifierOf(events[j].key) != Some(m)
  }

  lemma LastWasPressStep(events: seq<KeyEvent>, m: Modifier)
    requires events != []
    ensures var last := events[|events| - 1];
            LastWasPress(events, m) <==>
            if ModifierOf(last.key) == Some(m) then last.down else LastWasPress(events[..|events| - 1], m)
  {
  }

  lemma SwapRemoveDropsOne(held: seq<Modifier>, i: nat)
    requires i < |held| && NoDuplicates(held)
    ensures NoDuplicates(SwapRemove(held, i))
    ensures forall m :: m in SwapRemove(held, i) <==> m in held && m != held[i]
  {
  }

  lemma {:induction false} ModifiersAreThoseLastPressed(events: seq<KeyEvent>)
    ensures NoDuplicates(ModifiersAfter(events))
    ensures forall m :: m in ModifiersAfter(events) <==> LastWasPress(events, m)
  {
    if events != [] {
      var n := |events| - 1;
      ModifiersAreThoseLastPressed(events[..n]);
      var held := ModifiersAfter(events[..n]);
      match ModifierOf(events[n].key) {
        case None =>
        case Some(k) =>
          if !events[n].down && k in held {
            SwapRemoveDropsOne(held, IndexOf(held, k));
          }
      }
      forall m ensures m in ModifiersAfter(events) <==> LastWasPress(events, m) {
        LastWasPressStep(events, m);
      }
    }
  }
}
