/** Assignment of USB devices to the ports of emulated host controllers. */
module Usb {
  import opened Common

  // In the order the configuration's enumeration derives.
  datatype UsbBus = Ohci | Uhci | Ehci | Xhci

  function Order(bus: UsbBus): nat {
    match bus
    case Ohci => 0
    case Uhci => 1
    case Ehci => 2
    case Xhci => 3
  }

  lemma BusesInOrder()
    ensures Order(Ohci) < Order(Uhci) < Order(Ehci) < Order(Xhci)
  {
  }

  function UsablePorts(bus: UsbBus): (ports: nat)
    ensures ports > 0
  {
    match bus
    case Ohci => 15
    case Uhci => 2
    case Ehci => 6
    case Xhci => 15
  }

  datatype UsbDevice = UsbDevice(permanent: bool, bus: UsbBus)

  datatype HostAddress = HostAddress(hostbus: nat, hostaddr: nat)

  // What udev finds for each configured device at some moment; a device that is
  // not plugged into the host is absent.
  type Resolution = map<nat, HostAddress>

  datatype Slot = Slot(bus: UsbBus, controller: nat, port: nat)

  // The slot that the r-th user of a bus gets.
  function SlotAt(bus: UsbBus, r: nat): Slot {
    Slot(bus, r / UsablePorts(bus), r % UsablePorts(bus) + 1)
  }

  // ----- the declarative assignment -----

  function CountBus(devices: seq<UsbDevice>, bus: UsbBus): nat {
    if devices == [] then 0
    else
      var last := |devices| - 1;
      CountBus(devices[..last], bus) + (if devices[last].bus == bus then 1 else 0)
  }

  // How many earlier devices share the bus of device k.
  function Rank(devices: seq<UsbDevice>, k: nat): nat
    requires k < |devices|
  {
    CountBus(devices[..k], devices[k].bus)
  }

  // The one slot that belongs to device k, whichever path attaches it.
  function SlotOf(devices: seq<UsbDevice>, k: nat): Slot
    requires k < |devices|
  {
    SlotAt(devices[k].bus, Rank(devices, k))
  }

  lemma {:induction false} CountBusPrefix(devices: seq<UsbDevice>, i: nat, j: nat, bus: UsbBus)
    requires i <= j <= |devices|
    ensures CountBus(devices[..i], bus) <= CountBus(devices[..j], bus)
    ensures (forall k :: i <= k < j ==> devices[k].bus != bus) ==>
              CountBus(devices[..i], bus) == CountBus(devices[..j], bus)
    ensures i < j && devices[i].bus == bus ==>
              CountBus(devices[..i], bus) < CountBus(devices[..j], bus)
  {
    if i < j {
      CountBusPrefix(devices, i, j - 1, bus);
      assert devices[..j][..j - 1] == devices[..j - 1];
    }
  }

  // Devices of one bus have different ranks, all below the number of users of the bus.
  lemma RanksDiffer(devices: seq<UsbDevice>, i: nat, j: nat)
    requires i < j < |devices| && devices[i].bus == devices[j].bus
    ensures Rank(devices, i) < Rank(devices, j)
  {
    CountBusPrefix(devices, i, j, devices[i].bus);
  }

  lemma RankBelowCount(devices: seq<UsbDevice>, k: nat)
    requires k < |devices|
    ensures Rank(devices, k) < CountBus(devices, devices[k].bus)
  {
    assert devices[..|devices|] == devices;
    CountBusPrefix(devices, k, |devices|, devices[k].bus);
  }

  function OnBus(devices: seq<UsbDevice>, n: nat, bus: UsbBus): set<nat>
    requires n <= |devices|
  {
    set j | 0 <= j < n && devices[j].bus == bus
  }

  // The rank is the number of earlier devices on the same bus.
  lemma {:induction false} CountIsCardinality(devices: seq<UsbDevice>, n: nat, bus: UsbBus)
    requires n <= |devices|
    ensures CountBus(devices[..n], bus) == |OnBus(devices, n, bus)|
  {
    if n > 0 {
      CountIsCardinality(devices, n - 1, bus);
      assert devices[..n][..n - 1] == devices[..n - 1];
      var before := OnBus(devices, n - 1, bus);
      assert OnBus(devices, n, bus) == if devices[n - 1].bus == bus then before + {n - 1} else before;
    }
  }

  lemma RankIsCardinality(devices: seq<UsbDevice>, k: nat)
    requires k < |devices|
    ensures Rank(devices, k) == |OnBus(devices, k, devices[k].bus)|
  {
    CountIsCardinality(devices, k, devices[k].bus);
  }

  // Controllers are filled one after the other, ports from 1 upwards.
  lemma SlotCountsUp(bus: UsbBus, r: nat)
    ensures var slot := SlotAt(bus, r);
            && slot.bus == bus && 1 <= slot.port <= UsablePorts(bus)
            && slot.controller * UsablePorts(bus) + (slot.port - 1) == r
  {
  }

  lemma SlotAtInjective(bus: UsbBus, r: nat, r': nat)
    requires SlotAt(bus, r) == SlotAt(bus, r')
    ensures r == r'
  {
    var p := UsablePorts(bus);
    assert r == p * (r / p) + r % p;
    assert r' == p * (r' / p) + r' % p;
  }

  // ----- stable sorting by bus -----

  ghost predicate Before(devices: seq<UsbDevice>, i: nat, j: nat)
    requires i < |devices| && j < |devices|
  {
    || Order(devices[i].bus) < Order(devices[j].bus)
    || (devices[i].bus == devices[j].bus && i < j)
  }

  ghost predicate Ascending(devices: seq<UsbDevice>, order: seq<nat>) {
    && (forall p :: 0 <= p < |order| ==> order[p] < |devices|)
    && (forall p, q :: 0 <= p < q < |order| ==> Before(devices, order[p], order[q]))
  }

  // order lists all indices, by bus and then by index.
  ghost predicate IsStableSort(devices: seq<UsbDevice>, order: seq<nat>) {
    && Ascending(devices, order)
    && forall k: nat :: k < |devices| ==> k in order
  }

  // Puts k behind everything that does not belong on a later bus.
  function InsertLast(devices: seq<UsbDevice>, order: seq<nat>, k: nat): (r: seq<nat>)
    requires k < |devices| && forall p :: 0 <= p < |order| ==> order[p] < |devices|
    ensures forall x :: x in r <==> x == k || x in order
    ensures forall p :: 0 <= p < |r| ==> r[p] < |devices|
  {
    var last := |order| - 1;
    if order == [] || Order(devices[order[last]].bus) <= Order(devices[k].bus) then order + [k]
    else InsertLast(devices, order[..last], k) + [order[last]]
  }

  lemma {:induction false} InsertLastSorts(devices: seq<UsbDevice>, order: seq<nat>, k: nat)
    requires k < |devices| && forall p :: 0 <= p < |order| ==> order[p] < k
    requires Ascending(devices, order)
    ensures Ascending(devices, InsertLast(devices, order, k))
  {
    var last := |order| - 1;
    if order != [] && Order(devices[order[last]].bus) > Order(devices[k].bus) {
      InsertLastSorts(devices, order[..last], k);
      var init := InsertLast(devices, order[..last], k);
      forall p | 0 <= p < |init| ensures Before(devices, init[p], order[last]) {
        assert init[p] in init;
        if init[p] != k {
          var q :| 0 <= q < last && order[..last][q] == init[p];
        }
      }
    } else {
      forall p | 0 <= p < |order| ensures Before(devices, order[p], k) {
        assert p < last ==> Before(devices, order[p], order[last]);
      }
    }
  }

  function SortByBus(devices: seq<UsbDevice>): (order: seq<nat>)
    ensures IsStableSort(devices, order)
  {
    SortPrefixSorts(devices, |devices|);
    SortPrefixLists(devices, |devices|);
    SortPrefix(devices, |devices|)
  }

  // The devices are inserted one after the other.
  function SortPrefix(devices: seq<UsbDevice>, n: nat): (order: seq<nat>)
    requires n <= |devices|
    ensures forall p :: 0 <= p < |order| ==> order[p] < |devices|
  {
    if n == 0 then [] else InsertLast(devices, SortPrefix(devices, n - 1), n - 1)
  }

  lemma {:induction false} SortPrefixLists(devices: seq<UsbDevice>, n: nat)
    requires n <= |devices|
    ensures forall k :: k in SortPrefix(devices, n) <==> 0 <= k < n
  {
    if n > 0 { SortPrefixLists(devices, n - 1); }
  }

  lemma {:induction false} SortPrefixSorts(devices: seq<UsbDevice>, n: nat)
    requires n <= |devices|
    ensures Ascending(devices, SortPrefix(devices, n))
  {
    if n > 0 {
      var init := SortPrefix(devices, n - 1);
      SortPrefixSorts(devices, n - 1);
      SortPrefixLists(devices, n - 1);
      forall p | 0 <= p < |init| ensures init[p] < n - 1 {
        assert init[p] in init;
      }
      InsertLastSorts(devices, init, n - 1);
    }
  }

  // In a complete sorted listing nothing fits between neighbours.
  lemma Neighbours(devices: seq<UsbDevice>, order: seq<nat>, p: nat, x: nat)
    requires IsStableSort(devices, order) && p < |order| && x < |devices|
    ensures Before(devices, x, order[p]) ==>
              p > 0 && (x == order[p - 1] || Before(devices, x, order[p - 1]))
    ensures Before(devices, order[p], x) ==>
              p + 1 < |order| && (x == order[p + 1] || Before(devices, order[p + 1], x))
  {
    assert x in order;
    var q :| 0 <= q < |order| && order[q] == x;
  }

  // Walking the sorted devices group by group and counting from zero in each group
  // counts exactly the rank.
  lemma CountingIsRank(devices: seq<UsbDevice>, order: seq<nat>, p: nat)
    requires IsStableSort(devices, order) && p < |order|
    ensures var k := order[p];
            Rank(devices, k) ==
            if p > 0 && devices[order[p - 1]].bus == devices[k].bus then Rank(devices, order[p - 1]) + 1 else 0
  {
    var k := order[p];
    var bus := devices[k].bus;
    var from := if p > 0 && devices[order[p - 1]].bus == bus then order[p - 1] + 1 else 0;
    assert p > 0 ==> Before(devices, order[p - 1], k);
    forall x: nat | from <= x < k ensures devices[x].bus != bus {
      Neighbours(devices, order, p, x);
    }
    CountBusPrefix(devices, from, k, bus);
    if from > 0 {
      assert devices[..from][..from - 1] == devices[..from - 1];
    }
  }

  // ----- the command line built before the machine starts -----

  datatype UsbArg =
    | UsbController(bus: UsbBus, index: nat, ports: Option<nat>)
    | UsbHost(address: HostAddress, slot: Slot)
    | UsbMouse(slot: Slot)
    | UsbKeyboard(slot: Slot)

  // The devices (and emulated devices) that the command line places.
  datatype Occupant = Device(index: nat) | Mouse | Keyboard

  function SlotOfOccupant(devices: seq<UsbDevice>, o: Occupant): Slot
    requires o.Device? ==> o.index < |devices|
  {
    match o
    case Device(k) => SlotOf(devices, k)
    case Mouse => SlotAt(Xhci, CountBus(devices, Xhci))
    case Keyboard => SlotAt(Xhci, CountBus(devices, Xhci) + 1)
  }

  function BusUsers(devices: seq<UsbDevice>, bus: UsbBus): nat {
    CountBus(devices, bus) + (if bus == Xhci then 3 else 0)
  }

  function ControllerCount(devices: seq<UsbDevice>, bus: UsbBus): nat {
    (BusUsers(devices, bus) + UsablePorts(bus) - 1) / UsablePorts(bus)
  }

  // As few controllers are created as can hold all users of the bus, which are three more
  // than devices on xhci.
  lemma ControllerCountIsLeast(devices: seq<UsbDevice>, bus: UsbBus, n: nat)
    ensures var users := CountBus(devices, bus) + (if bus.Xhci? then 3 else 0);
            n * UsablePorts(bus) >= users <==> n >= ControllerCount(devices, bus)
  {
    var p, users := UsablePorts(bus), BusUsers(devices, bus);
    var c := ControllerCount(devices, bus);
    assert users + p - 1 == p * c + (users + p - 1) % p;
    if n >= c {
      assert n * p >= c * p;
    } else {
      assert (n + 1) * p <= c * p;
      assert (n + 1) * p == n * p + p;
    }
  }

  // Each device at the count of those before it on its bus, then the mouse, the keyboard.
  lemma OccupantsCountUp(devices: seq<UsbDevice>, o: Occupant)
    requires o.Device? ==> o.index < |devices|
    ensures var slot := SlotOfOccupant(devices, o);
            && slot.bus == BusOf(devices, o)
            && slot.controller * UsablePorts(slot.bus) + (slot.port - 1) ==
               match o
               case Device(k) => |OnBus(devices, k, devices[k].bus)|
               case Mouse => |OnBus(devices, |devices|, Xhci)|
               case Keyboard => |OnBus(devices, |devices|, Xhci)| + 1
  {
    assert devices[..|devices|] == devices;
    CountIsCardinality(devices, |devices|, Xhci);
    if o.Device? { RankIsCardinality(devices, o.index); }
    SlotCountsUp(BusOf(devices, o), UseNumber(devices, o));
  }

  predicate SlotExists(devices: seq<UsbDevice>, slot: Slot) {
    slot.controller < ControllerCount(devices, slot.bus) && 1 <= slot.port <= UsablePorts(slot.bus)
  }

  // No two occupants share a slot.
  lemma SlotsDiffer(devices: seq<UsbDevice>, a: Occupant, b: Occupant)
    requires a.Device? ==> a.index < |devices|
    requires b.Device? ==> b.index < |devices|
    requires a != b
    ensures SlotOfOccupant(devices, a) != SlotOfOccupant(devices, b)
  {
    if SlotOfOccupant(devices, a) == SlotOfOccupant(devices, b) {
      SlotAtInjective(BusOf(devices, a), UseNumber(devices, a), UseNumber(devices, b));
      if a.Device? && b.Device? {
        UseNumbersDiffer(devices, a.index, b.index);
      } else if a.Device? {
        RankBelowCount(devices, a.index);
      } else if b.Device? {
        RankBelowCount(devices, b.index);
      }
    }
  }

  lemma UseNumbersDiffer(devices: seq<UsbDevice>, i: nat, j: nat)
    requires i < |devices| && j < |devices| && i != j && devices[i].bus == devices[j].bus
    ensures Rank(devices, i) != Rank(devices, j)
  {
    if i < j { RanksDiffer(devices, i, j); } else { RanksDiffer(devices, j, i); }
  }

  // Every slot lies on a controller that was created, and its port is usable.
  lemma SlotsExist(devices: seq<UsbDevice>, o: Occupant)
    requires o.Device? ==> o.index < |devices|
    ensures SlotExists(devices, SlotOfOccupant(devices, o))
  {
    if o.Device? { RankBelowCount(devices, o.index); }
    SlotInRange(devices, BusOf(devices, o), UseNumber(devices, o));
  }

  lemma SlotInRange(devices: seq<UsbDevice>, bus: UsbBus, r: nat)
    requires r < BusUsers(devices, bus)
    ensures SlotExists(devices, SlotAt(bus, r))
  {
    var p := UsablePorts(bus);
    ControllerCountIsLeast(devices, bus, r / p);
    assert r == p * (r / p) + r % p;
    assert (r / p) * p <= r;
  }

  function BusOf(devices: seq<UsbDevice>, o: Occupant): UsbBus
    requires o.Device? ==> o.index < |devices|
  {
    if o.Device? then devices[o.index].bus else Xhci
  }

  // The position of an occupant among the users of its bus.
  function UseNumber(devices: seq<UsbDevice>, o: Occupant): (r: nat)
    requires o.Device? ==> o.index < |devices|
    ensures SlotOfOccupant(devices, o) == SlotAt(BusOf(devices, o), r)
  {
    match o
    case Device(k) => Rank(devices, k)
    case Mouse => CountBus(devices, Xhci)
    case Keyboard => CountBus(devices, Xhci) + 1
  }

  // The usb-host arguments: permanent devices that are present, in sorted order, each
  // at the slot of its rank.
  function BootHosts(devices: seq<UsbDevice>, usb: Resolution, order: seq<nat>): seq<UsbArg>
    requires forall p :: 0 <= p < |order| ==> order[p] < |devices|
  {
    if order == [] then []
    else
      var last := |order| - 1;
      var k := order[last];
      BootHosts(devices, usb, order[..last])
      + (if devices[k].permanent && k in usb then [UsbHost(usb[k], SlotOf(devices, k))] else [])
  }

  // Mouse and keyboard are placed only if some device sits on xhci.
  function EmulatedArgs(devices: seq<UsbDevice>): seq<UsbArg> {
    if CountBus(devices, Xhci) > 0 then
      [UsbMouse(SlotOfOccupant(devices, Mouse)), UsbKeyboard(SlotOfOccupant(devices, Keyboard))]
    else []
  }

  // The number of ports a controller is created with, unless it is fixed by its kind.
  function CreatedPorts(bus: UsbBus): Option<nat> {
    match bus
    case Ohci => Some(15)
    case Uhci => None
    case Ehci => None
    case Xhci => Some(15)
  }

  // Of the kinds that are created without a number, a UHCI controller has 2 ports and the
  // EHCI controller of the ICH9 has 6; so slots never exceed what there is.
  lemma UsablePortsAreCreated(bus: UsbBus)
    ensures CreatedPorts(bus).Some? ==> UsablePorts(bus) == CreatedPorts(bus).value
    ensures bus.Uhci? ==> UsablePorts(bus) == 2
    ensures bus.Ehci? ==> UsablePorts(bus) == 6
  {
  }

  method CreateUsbBuses(devices: seq<UsbDevice>, bus: UsbBus) returns (args: seq<UsbArg>)
    ensures |args| == ControllerCount(devices, bus)
    ensures forall i :: 0 <= i < |args| ==> args[i] == UsbController(bus, i, CreatedPorts(bus))
  {
    var count := CountBus(devices, bus);
    if bus == Xhci {
      count := count + 3;
    }
    var num := (count + UsablePorts(bus) - 1) / UsablePorts(bus);
    args := [];
    for i := 0 to num
      invariant |args| == i
      invariant forall j :: 0 <= j < i ==> args[j] == UsbController(bus, j, CreatedPorts(bus))
    {
      args := args + [UsbController(bus, i, CreatedPorts(bus))];
    }
  }

  // Xhci is the last bus, so mouse and keyboard follow all devices.
  function EmulatedSoFar(devices: seq<UsbDevice>, order: seq<nat>, p: nat): seq<UsbArg>
    requires p <= |order| && forall q :: 0 <= q < |order| ==> order[q] < |devices|
  {
    if p > 0 && devices[order[p - 1]].bus == Xhci then
      [UsbMouse(SlotOfOccupant(devices, Mouse)), UsbKeyboard(SlotOfOccupant(devices, Keyboard))]
    else []
  }

  lemma NoneEmulatedYet(devices: seq<UsbDevice>, order: seq<nat>, p: nat)
    requires IsStableSort(devices, order) && p < |order|
    requires p > 0 ==> devices[order[p - 1]].bus != devices[order[p]].bus
    ensures EmulatedSoFar(devices, order, p) == []
  {
    assert p > 0 ==> Before(devices, order[p - 1], order[p]);
  }

  lemma BootHostsStep(devices: seq<UsbDevice>, usb: Resolution, order: seq<nat>, p: nat)
    requires p < |order| && forall q :: 0 <= q < |order| ==> order[q] < |devices|
    ensures var k := order[p];
            BootHosts(devices, usb, order[..p + 1]) ==
            BootHosts(devices, usb, order[..p])
            + (if devices[k].permanent && k in usb then [UsbHost(usb[k], SlotOf(devices, k))] else [])
  {
    assert order[..p + 1][..p] == order[..p];
  }

  // One group: all devices of the bus that order[start] sits on.
  method BootGroup(devices: seq<UsbDevice>, usb: Resolution, order: seq<nat>, start: nat, before: seq<UsbArg>)
    returns (args: seq<UsbArg>, p: nat, i: nat)
    requires forall q :: 0 <= q < |order| ==> order[q] < |devices|
    requires start <= |order| && before == BootHosts(devices, usb, order[..start])
    requires IsStableSort(devices, order) && start < |order|
    requires start > 0 ==> devices[order[start - 1]].bus != devices[order[start]].bus
    ensures start < p <= |order|
    ensures devices[order[p - 1]].bus == devices[order[start]].bus
    ensures p < |order| ==> devices[order[p]].bus != devices[order[start]].bus
    ensures args == BootHosts(devices, usb, order[..p])
    ensures i == Rank(devices, order[p - 1]) + 1
  {
    var bus := devices[order[start]].bus;
    args, p, i := before, start, 0;
    while p < |order| && devices[order[p]].bus == bus
      invariant start <= p <= |order|
      invariant p == start ==> i == 0
      invariant p > start ==> devices[order[p - 1]].bus == bus && i == Rank(devices, order[p - 1]) + 1
      invariant args == BootHosts(devices, usb, order[..p])
    {
      var k := order[p];
      var port := i;
      i := i + 1;
      CountingIsRank(devices, order, p);
      BootHostsStep(devices, usb, order, p);
      if devices[k].permanent && k in usb {
        args := args + [UsbHost(usb[k], SlotAt(bus, port))];
      }
      p := p + 1;
    }
  }

  // The boot path counts ports while it walks the groups; every device, permanent or
  // not, gets the slot of its rank reserved.
  method BootUsbArgs(devices: seq<UsbDevice>, usb: Resolution) returns (args: seq<UsbArg>)
    ensures args == BootHosts(devices, usb, SortByBus(devices)) + EmulatedArgs(devices)
  {
    var order := SortByBus(devices);
    args := [];
    var p := 0;
    while p < |order|
      invariant p <= |order|
      invariant 0 < p < |order| ==> devices[order[p - 1]].bus != devices[order[p]].bus
      invariant args == BootHosts(devices, usb, order[..p]) + EmulatedSoFar(devices, order, p)
    {
      var bus := devices[order[p]].bus;
      NoneEmulatedYet(devices, order, p);
      var i;
      args, p, i := BootGroup(devices, usb, order, p, args);
      if bus == Xhci {
        LastGroup(devices, order, p);
        args := args + [UsbMouse(SlotAt(Xhci, i))];
        args := args + [UsbKeyboard(SlotAt(Xhci, i + 1))];
      }
    }
    assert order[..p] == order;
    XhciComesLast(devices, order);
  }

  // When the group of a bus ends, the counter stands at the number of its devices.
  lemma LastGroup(devices: seq<UsbDevice>, order: seq<nat>, p: nat)
    requires IsStableSort(devices, order) && 0 < p <= |order|
    requires p < |order| ==> devices[order[p]].bus != devices[order[p - 1]].bus
    ensures Rank(devices, order[p - 1]) + 1 == CountBus(devices, devices[order[p - 1]].bus)
  {
    var j := order[p - 1];
    var bus := devices[j].bus;
    assert p < |order| ==> Before(devices, j, order[p]);
    forall x: nat | j + 1 <= x < |devices| ensures devices[x].bus != bus {
      Neighbours(devices, order, p - 1, x);
    }
    CountBusPrefix(devices, j + 1, |devices|, bus);
    assert devices[..j + 1][..j] == devices[..j];
    assert devices[..|devices|] == devices;
  }

  lemma XhciComesLast(devices: seq<UsbDevice>, order: seq<nat>)
    requires IsStableSort(devices, order)
    ensures EmulatedSoFar(devices, order, |order|) == EmulatedArgs(devices)
  {
    assert devices[..|devices|] == devices;
    if order != [] && devices[order[|order| - 1]].bus == Xhci {
      RankBelowCount(devices, order[|order| - 1]);
    } else {
      forall x: nat | x < |devices| ensures devices[x].bus != Xhci {
        assert x in order;
        if order != [] { Neighbours(devices, order, |order| - 1, x); }
      }
      CountBusPrefix(devices, 0, |devices|, Xhci);
    }
  }
}
