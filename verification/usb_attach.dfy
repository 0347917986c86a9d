/** The two paths that attach USB devices, side by side: the command line built at boot
    and the hot-plug commands sent later. */
module UsbAttach {
  import opened Common
  import opened Usb
  import opened Messages
  import opened ControllerModel

  // The devices that a path takes, in sorted order.
  function Taken(devices: seq<UsbDevice>, usb: Resolution, order: seq<nat>, permanent: bool): (r: seq<nat>)
    requires forall p :: 0 <= p < |order| ==> order[p] < |devices|
    ensures forall k :: k in r <==> k in order && devices[k].permanent == permanent && k in usb
  {
    if order == [] then []
    else
      var last := |order| - 1;
      var k := order[last];
      assert order == order[..last] + [k];
      Taken(devices, usb, order[..last], permanent)
      + (if devices[k].permanent == permanent && k in usb then [k] else [])
  }

  lemma {:induction false} TakenOnce(devices: seq<UsbDevice>, usb: Resolution, order: seq<nat>, permanent: bool)
    requires Ascending(devices, order)
    ensures NoDuplicates(Taken(devices, usb, order, permanent))
  {
    if order != [] {
      var last := |order| - 1;
      TakenOnce(devices, usb, order[..last], permanent);
      assert forall p :: 0 <= p < last ==> Before(devices, order[p], order[last]);
      assert order[last] !in order[..last];
    }
  }

  lemma {:induction false} BootTakesPermanent(devices: seq<UsbDevice>, usb: Resolution, order: seq<nat>)
    requires forall p :: 0 <= p < |order| ==> order[p] < |devices|
    ensures |BootHosts(devices, usb, order)| == |Taken(devices, usb, order, true)|
    ensures forall i :: 0 <= i < |Taken(devices, usb, order, true)| ==>
              && Taken(devices, usb, order, true)[i] in usb && Taken(devices, usb, order, true)[i] < |devices|
              && BootHosts(devices, usb, order)[i] ==
                 UsbHost(usb[Taken(devices, usb, order, true)[i]], SlotOf(devices, Taken(devices, usb, order, true)[i]))
  {
    if order != [] { BootTakesPermanent(devices, usb, order[..|order| - 1]); }
  }

  lemma {:induction false} HotplugTakesOthers(devices: seq<UsbDevice>, usb: Resolution, order: seq<nat>)
    requires forall p :: 0 <= p < |order| ==> order[p] < |devices|
    ensures |HotplugAdds(devices, usb, order)| == |Taken(devices, usb, order, false)|
    ensures forall i :: 0 <= i < |Taken(devices, usb, order, false)| ==>
              && Taken(devices, usb, order, false)[i] in usb && Taken(devices, usb, order, false)[i] < |devices|
              && HotplugAdds(devices, usb, order)[i] ==
                 DeviceAdd(Taken(devices, usb, order, false)[i], SlotOf(devices, Taken(devices, usb, order, false)[i]),
                           usb[Taken(devices, usb, order, false)[i]])
  {
    if order != [] { HotplugTakesOthers(devices, usb, order[..|order| - 1]); }
  }

  function Devices(ks: seq<nat>): seq<Occupant> {
    seq(|ks|, i requires 0 <= i < |ks| => Device(ks[i]))
  }

  // Who is placed at boot: the permanent devices present, then mouse and keyboard.
  function BootOccupants(devices: seq<UsbDevice>, usb: Resolution): seq<Occupant> {
    Devices(Taken(devices, usb, SortByBus(devices), true))
    + (if CountBus(devices, Xhci) > 0 then [Mouse, Keyboard] else [])
  }

  function LaterOccupants(devices: seq<UsbDevice>, usb: Resolution): seq<Occupant> {
    Devices(Taken(devices, usb, SortByBus(devices), false))
  }

  // What the boot path and the hot-plug path send.
  function BootArgs(devices: seq<UsbDevice>, usb: Resolution): seq<UsbArg> {
    BootHosts(devices, usb, SortByBus(devices)) + EmulatedArgs(devices)
  }

  function LaterCommands(devices: seq<UsbDevice>, usb: Resolution): seq<QmpCommand> {
    HotplugAdds(devices, usb, SortByBus(devices))
  }

  // The argument places this occupant, found where udev says, in the slot that is its own.
  predicate Places(devices: seq<UsbDevice>, usb: Resolution, arg: UsbArg, o: Occupant) {
    match o
    case Device(k) => k < |devices| && devices[k].permanent && k in usb && arg == UsbHost(usb[k], SlotOf(devices, k))
    case Mouse => arg == UsbMouse(SlotOfOccupant(devices, Mouse))
    case Keyboard => arg == UsbKeyboard(SlotOfOccupant(devices, Keyboard))
  }

  lemma HostIsPlaced(devices: seq<UsbDevice>, usb: Resolution, i: nat)
    requires i < |Taken(devices, usb, SortByBus(devices), true)|
    ensures i < |BootHosts(devices, usb, SortByBus(devices))|
    ensures Places(devices, usb, BootHosts(devices, usb, SortByBus(devices))[i],
                   Device(Taken(devices, usb, SortByBus(devices), true)[i]))
  {
    var order := SortByBus(devices);
    BootTakesPermanent(devices, usb, order);
    assert Taken(devices, usb, order, true)[i] in Taken(devices, usb, order, true);
  }

  lemma EmulatedArePlaced(devices: seq<UsbDevice>, usb: Resolution, i: nat)
    requires i < |EmulatedArgs(devices)|
    ensures i < 2 && Places(devices, usb, EmulatedArgs(devices)[i], [Mouse, Keyboard][i])
  {
  }

  // Both name, for each occupant in turn, the slot that belongs to it.
  lemma BootNamesOwnSlots(devices: seq<UsbDevice>, usb: Resolution)
    ensures |BootArgs(devices, usb)| == |BootOccupants(devices, usb)|
    ensures forall i :: 0 <= i < |BootArgs(devices, usb)| ==>
              Places(devices, usb, BootArgs(devices, usb)[i], BootOccupants(devices, usb)[i])
  {
    var order := SortByBus(devices);
    BootTakesPermanent(devices, usb, order);
    var hosts, ks := BootHosts(devices, usb, order), Taken(devices, usb, order, true);
    var args, all := BootArgs(devices, usb), BootOccupants(devices, usb);
    forall i | 0 <= i < |args| ensures Places(devices, usb, args[i], all[i]) {
      if i < |ks| {
        HostIsPlaced(devices, usb, i);
        assert args[i] == hosts[i] && all[i] == Device(ks[i]);
      } else {
        EmulatedArePlaced(devices, usb, i - |ks|);
        assert args[i] == EmulatedArgs(devices)[i - |ks|] && all[i] == [Mouse, Keyboard][i - |ks|];
      }
    }
  }

  // The command adds this device, found where udev says, under its id and in its own slot.
  predicate Adds(devices: seq<UsbDevice>, usb: Resolution, cmd: QmpCommand, o: Occupant) {
    && o.Device? && o.index < |devices| && !devices[o.index].permanent && o.index in usb
    && cmd == DeviceAdd(o.index, SlotOf(devices, o.index), usb[o.index])
  }

  lemma LaterNamesOwnSlots(devices: seq<UsbDevice>, usb: Resolution)
    ensures |LaterCommands(devices, usb)| == |LaterOccupants(devices, usb)|
    ensures forall i :: 0 <= i < |LaterCommands(devices, usb)| ==>
              Adds(devices, usb, LaterCommands(devices, usb)[i], LaterOccupants(devices, usb)[i])
  {
    var order := SortByBus(devices);
    HotplugTakesOthers(devices, usb, order);
    var ks := Taken(devices, usb, order, false);
    forall i | 0 <= i < |ks| ensures !devices[ks[i]].permanent {
      assert ks[i] in ks;
    }
  }

  lemma OccupantsOnce(devices: seq<UsbDevice>, usb: Resolution)
    ensures NoDuplicates(BootOccupants(devices, usb)) && NoDuplicates(LaterOccupants(devices, usb))
  {
    TakenOnce(devices, usb, SortByBus(devices), true);
    TakenOnce(devices, usb, SortByBus(devices), false);
  }

  lemma SomeOnXhci(devices: seq<UsbDevice>)
    ensures CountBus(devices, Xhci) > 0 <==> exists k :: 0 <= k < |devices| && devices[k].bus == Xhci
  {
    assert devices[..|devices|] == devices;
    CountIsCardinality(devices, |devices|, Xhci);
    var users := OnBus(devices, |devices|, Xhci);
    if k :| 0 <= k < |devices| && devices[k].bus == Xhci {
      assert k in users;
    } else {
      assert users == {};
    }
  }

  // The mouse and the keyboard are there, in this order behind all devices, exactly if some
  // device is on xhci.
  lemma EmulatedIffXhci(devices: seq<UsbDevice>, usb: Resolution)
    ensures var n := |Taken(devices, usb, SortByBus(devices), true)|;
            var all := BootOccupants(devices, usb);
            && (forall i :: 0 <= i < |all| && i < n ==> all[i].Device?)
            && if exists k :: 0 <= k < |devices| && devices[k].bus == Xhci then
                 |all| == n + 2 && all[n] == Mouse && all[n + 1] == Keyboard
               else
                 |all| == n
  {
    SomeOnXhci(devices);
  }

  lemma BootSlots(devices: seq<UsbDevice>, usb: Resolution, i: nat)
    requires i < |BootArgs(devices, usb)|
    ensures var args, all := BootArgs(devices, usb), BootOccupants(devices, usb);
            && |all| == |args| && !args[i].UsbController?
            && (all[i].Device? ==> all[i].index < |devices| && devices[all[i].index].permanent)
            && args[i].slot == SlotOfOccupant(devices, all[i])
  {
    BootNamesOwnSlots(devices, usb);
    assert Places(devices, usb, BootArgs(devices, usb)[i], BootOccupants(devices, usb)[i]);
  }

  lemma LaterSlots(devices: seq<UsbDevice>, usb: Resolution, i: nat)
    requires i < |LaterCommands(devices, usb)|
    ensures var cmds, all := LaterCommands(devices, usb), LaterOccupants(devices, usb);
            && |all| == |cmds| && cmds[i].DeviceAdd?
            && all[i].Device? && all[i].index < |devices| && !devices[all[i].index].permanent
            && cmds[i].slot == SlotOfOccupant(devices, all[i])
  {
    LaterNamesOwnSlots(devices, usb);
    assert Adds(devices, usb, LaterCommands(devices, usb)[i], LaterOccupants(devices, usb)[i]);
  }

  lemma BootSlotsExist(devices: seq<UsbDevice>, usb: Resolution)
    ensures forall i :: 0 <= i < |BootArgs(devices, usb)| ==>
              !BootArgs(devices, usb)[i].UsbController? && SlotExists(devices, BootArgs(devices, usb)[i].slot)
    ensures forall i, j :: 0 <= i < j < |BootArgs(devices, usb)| ==>
              BootArgs(devices, usb)[i].slot != BootArgs(devices, usb)[j].slot
  {
    var args, all := BootArgs(devices, usb), BootOccupants(devices, usb);
    forall i | 0 <= i < |args| ensures !args[i].UsbController? && SlotExists(devices, args[i].slot) {
      BootSlots(devices, usb, i);
      SlotsExist(devices, all[i]);
    }
    forall i, j | 0 <= i < j < |args| ensures args[i].slot != args[j].slot {
      BootSlots(devices, usb, i);
      BootSlots(devices, usb, j);
      OccupantsOnce(devices, usb);
      SlotsDiffer(devices, all[i], all[j]);
    }
  }

  lemma LaterSlotsExist(devices: seq<UsbDevice>, usb: Resolution)
    ensures forall i :: 0 <= i < |LaterCommands(devices, usb)| ==>
              LaterCommands(devices, usb)[i].DeviceAdd? && SlotExists(devices, LaterCommands(devices, usb)[i].slot)
    ensures forall i, j :: 0 <= i < j < |LaterCommands(devices, usb)| ==>
              LaterCommands(devices, usb)[i].slot != LaterCommands(devices, usb)[j].slot
  {
    var cmds, all := LaterCommands(devices, usb), LaterOccupants(devices, usb);
    forall i | 0 <= i < |cmds| ensures cmds[i].DeviceAdd? && SlotExists(devices, cmds[i].slot) {
      LaterSlots(devices, usb, i);
      SlotsExist(devices, all[i]);
    }
    forall i, j | 0 <= i < j < |cmds| ensures cmds[i].slot != cmds[j].slot {
      LaterSlots(devices, usb, i);
      LaterSlots(devices, usb, j);
      OccupantsOnce(devices, usb);
      SlotsDiffer(devices, all[i], all[j]);
    }
  }

  // Whatever is present at boot and whatever is present later: no slot is named twice,
  // by one path or by both, and every slot exists on the controllers that were created.
  lemma BootAndHotplugNeverCollide(devices: seq<UsbDevice>, boot: Resolution, later: Resolution)
    ensures forall i :: 0 <= i < |BootArgs(devices, boot)| ==>
              !BootArgs(devices, boot)[i].UsbController? && SlotExists(devices, BootArgs(devices, boot)[i].slot)
    ensures forall i :: 0 <= i < |LaterCommands(devices, later)| ==>
              LaterCommands(devices, later)[i].DeviceAdd? && SlotExists(devices, LaterCommands(devices, later)[i].slot)
    ensures forall i, j :: 0 <= i < j < |BootArgs(devices, boot)| ==>
              BootArgs(devices, boot)[i].slot != BootArgs(devices, boot)[j].slot
    ensures forall i, j :: 0 <= i < j < |LaterCommands(devices, later)| ==>
              LaterCommands(devices, later)[i].slot != LaterCommands(devices, later)[j].slot
    ensures forall i, j :: 0 <= i < |BootArgs(devices, boot)| && 0 <= j < |LaterCommands(devices, later)| ==>
              BootArgs(devices, boot)[i].slot != LaterCommands(devices, later)[j].slot
  {
    BootSlotsExist(devices, boot);
    LaterSlotsExist(devices, later);
    forall i, j | 0 <= i < |BootArgs(devices, boot)| && 0 <= j < |LaterCommands(devices, later)|
      ensures BootArgs(devices, boot)[i].slot != LaterCommands(devices, later)[j].slot
    {
      BootSlots(devices, boot, i);
      LaterSlots(devices, later, j);
      SlotsDiffer(devices, BootOccupants(devices, boot)[i], LaterOccupants(devices, later)[j]);
    }
  }
}
