/** PCIe root ports for passed-through devices: one per device address, shared by the
    functions of the device. */
module RootPorts {
  import opened Common

  datatype PciArg =
    | RootPort(id: nat)
    | Vfio(host: string, rootPort: nat, function_: string)

  // The position of the first dot.
  function Dot(slot: string): (i: nat)
    requires '.' in slot
    ensures i < |slot| && slot[i] == '.' && '.' !in slot[..i]
  {
    if slot[0] == '.' then 0
    else
      var i := 1 + Dot(slot[1..]);
      assert slot[..i] == [slot[0]] + slot[1..][..i - 1];
      i
  }

  function Address(slot: string): string
    requires '.' in slot
  {
    slot[..Dot(slot)]
  }

  function FunctionNumber(slot: string): string
    requires '.' in slot
  {
    slot[Dot(slot) + 1..]
  }

  predicate WellFormed(slots: seq<string>) {
    forall i :: 0 <= i < |slots| ==> '.' in slots[i]
  }

  // The addresses in the order of their first occurrence.
  function Addresses(slots: seq<string>): (r: seq<string>)
    requires WellFormed(slots)
    ensures NoDuplicates(r)
  {
    if slots == [] then []
    else
      var init := Addresses(slots[..|slots| - 1]);
      var a := Address(slots[|slots| - 1]);
      if a in init then init else init + [a]
  }

  lemma {:induction false} AddressIsListed(slots: seq<string>, k: nat)
    requires WellFormed(slots) && k < |slots|
    ensures Address(slots[k]) in Addresses(slots)
  {
    var last := |slots| - 1;
    if k < last {
      AddressIsListed(slots[..last], k);
    }
  }

  // Only addresses of devices are listed, and an address is listed before another one
  // exactly if it occurs first.
  lemma {:induction false} ListedByFirstOccurrence(slots: seq<string>, i: nat) returns (k: nat)
    requires WellFormed(slots) && i < |Addresses(slots)|
    ensures k < |slots| && Address(slots[k]) == Addresses(slots)[i]
    ensures Addresses(slots[..k]) == Addresses(slots)[..i]
  {
    var last := |slots| - 1;
    var init := Addresses(slots[..last]);
    if i < |init| {
      k := ListedByFirstOccurrence(slots[..last], i);
      assert slots[..last][..k] == slots[..k];
    } else {
      k := last;
    }
  }

  lemma IndexOfUnique(s: seq<string>, i: nat)
    requires NoDuplicates(s) && i < |s|
    ensures IndexOf(s, s[i]) == i
  {
  }

  // The root port of a device: how many other addresses came first.
  function PortOf(slots: seq<string>, k: nat): nat
    requires WellFormed(slots) && k < |slots|
  {
    AddressIsListed(slots, k);
    IndexOf(Addresses(slots), Address(slots[k]))
  }

  // Two devices share a root port exactly when they have the same address.
  lemma SharedIffSameAddress(slots: seq<string>, i: nat, j: nat)
    requires WellFormed(slots) && i < |slots| && j < |slots|
    ensures PortOf(slots, i) == PortOf(slots, j) <==> Address(slots[i]) == Address(slots[j])
    ensures PortOf(slots, i) < |Addresses(slots)|
  {
  }

  // The first dot of the address text.
  predicate FirstDot(slot: string, n: nat) {
    n < |slot| && slot[n] == '.' && forall k :: 0 <= k < n ==> slot[k] != '.'
  }

  lemma FirstDotIsDot(slot: string, n: nat)
    requires FirstDot(slot, n)
    ensures '.' in slot && Dot(slot) == n
  {
    var m := Dot(slot);
    assert forall k :: 0 <= k < m ==> slot[..m][k] == slot[k];
  }

  // Two devices share a root port exactly when the texts before the first dots agree; what
  // is behind the dot is the function.
  lemma FunctionsOfADeviceShare(slots: seq<string>, i: nat, j: nat, n: nat, m: nat)
    requires WellFormed(slots) && i < |slots| && j < |slots|
    requires FirstDot(slots[i], n) && FirstDot(slots[j], m)
    ensures PortOf(slots, i) == PortOf(slots, j) <==> slots[i][..n] == slots[j][..m]
    ensures FunctionNumber(slots[i]) == slots[i][n + 1..]
  {
    FirstDotIsDot(slots[i], n);
    FirstDotIsDot(slots[j], m);
    SharedIffSameAddress(slots, i, j);
  }

  // The ids of the declared root ports, in order.
  function Declared(args: seq<PciArg>): seq<nat> {
    if args == [] then []
    else
      var last := |args| - 1;
      Declared(args[..last]) + (if args[last].RootPort? then [args[last].id] else [])
  }

  // The devices, in order, each with the root port it sits on.
  function Placed(args: seq<PciArg>): seq<PciArg> {
    if args == [] then []
    else
      var last := |args| - 1;
      Placed(args[..last]) + (if args[last].Vfio? then [args[last]] else [])
  }

  lemma DeclaredAppend(args: seq<PciArg>, arg: PciArg)
    ensures Declared(args + [arg]) == Declared(args) + (if arg.RootPort? then [arg.id] else [])
    ensures Placed(args + [arg]) == Placed(args) + (if arg.Vfio? then [arg] else [])
  {
    assert (args + [arg])[..|args|] == args;
  }

  // Every device sits on a root port that was declared before it.
  ghost predicate DeclaredBeforeUse(args: seq<PciArg>) {
    forall i :: 0 <= i < |args| && args[i].Vfio? ==> args[i].rootPort in Declared(args[..i])
  }

  lemma AppendDeclared(args: seq<PciArg>, arg: PciArg)
    requires DeclaredBeforeUse(args) && (arg.Vfio? ==> arg.rootPort in Declared(args))
    ensures DeclaredBeforeUse(args + [arg])
  {
    var r := args + [arg];
    forall i | 0 <= i < |r| && r[i].Vfio? ensures r[i].rootPort in Declared(r[..i]) {
      assert r[..i] == args[..i];
      assert args[..|args|] == args;
    }
  }

  // Growing the list of devices does not move anyone to another root port.
  lemma PortStays(slots: seq<string>, n: nat, k: nat)
    requires WellFormed(slots) && k < n < |slots|
    ensures PortOf(slots[..n], k) == PortOf(slots[..n + 1], k)
  {
    assert slots[..n + 1][..n] == slots[..n];
    var before, after := Addresses(slots[..n]), Addresses(slots[..n + 1]);
    var i := PortOf(slots[..n], k);
    assert before <= after;
    assert before[i] == after[i] == Address(slots[k]);
    IndexOfUnique(after, i);
  }

  // The map knows every address by its index.
  ghost predicate Indexes(rootPorts: map<string, nat>, addresses: seq<string>) {
    && |rootPorts| == |addresses|
    && (forall a :: a in rootPorts <==> a in addresses)
    && forall a :: a in rootPorts ==> rootPorts[a] == IndexOf(addresses, a)
  }

  lemma IndexNewAddress(rootPorts: map<string, nat>, addresses: seq<string>, a: string)
    requires Indexes(rootPorts, addresses) && NoDuplicates(addresses) && a !in addresses
    ensures Indexes(rootPorts[a := |addresses|], addresses + [a])
  {
  }

  // The devices are placed in order, each at its port and function.
  ghost predicate InPlace(slots: seq<string>, placed: seq<PciArg>)
    requires WellFormed(slots)
  {
    && |placed| == |slots|
    && forall k :: 0 <= k < |slots| ==> placed[k] == Vfio(slots[k], PortOf(slots, k), FunctionNumber(slots[k]))
  }

  // Exactly the root ports 0, 1, .. are declared, each once and before its use, and
  // the devices are placed in order.
  ghost predicate LaidOut(slots: seq<string>, args: seq<PciArg>)
    requires WellFormed(slots)
  {
    && Declared(args) == Range(0, |Addresses(slots)|)
    && DeclaredBeforeUse(args)
    && InPlace(slots, Placed(args))
  }

  // A root port for the new address, if it is new.
  function WithPort(slots: seq<string>, n: nat, args: seq<PciArg>): seq<PciArg>
    requires WellFormed(slots) && n < |slots|
  {
    if Address(slots[n]) in Addresses(slots[..n]) then args else args + [RootPort(|Addresses(slots[..n])|)]
  }

  lemma NextAddresses(slots: seq<string>, n: nat)
    requires WellFormed(slots) && n < |slots|
    ensures var before, a := Addresses(slots[..n]), Address(slots[n]);
            Addresses(slots[..n + 1]) == if a in before then before else before + [a]
  {
    assert slots[..n + 1][..n] == slots[..n];
  }

  lemma DeclareStep(slots: seq<string>, n: nat, args: seq<PciArg>)
    requires WellFormed(slots) && n < |slots|
    requires Declared(args) == Range(0, |Addresses(slots[..n])|) && DeclaredBeforeUse(args)
    ensures Declared(WithPort(slots, n, args)) == Range(0, |Addresses(slots[..n + 1])|)
    ensures DeclaredBeforeUse(WithPort(slots, n, args))
    ensures Placed(WithPort(slots, n, args)) == Placed(args)
  {
    NextAddresses(slots, n);
    var id := |Addresses(slots[..n])|;
    if Address(slots[n]) !in Addresses(slots[..n]) {
      DeclaredAppend(args, RootPort(id));
      AppendDeclared(args, RootPort(id));
      assert Range(0, id) + [id] == Range(0, id + 1);
    }
  }

  lemma PlaceStep(slots: seq<string>, n: nat, args: seq<PciArg>)
    requires WellFormed(slots) && n < |slots| && LaidOut(slots[..n], args)
    ensures var arg := Vfio(slots[n], PortOf(slots[..n + 1], n), FunctionNumber(slots[n]));
            LaidOut(slots[..n + 1], WithPort(slots, n, args) + [arg])
  {
    var port := PortOf(slots[..n + 1], n);
    var arg := Vfio(slots[n], port, FunctionNumber(slots[n]));
    var declared := WithPort(slots, n, args);
    DeclareStep(slots, n, args);
    SharedIffSameAddress(slots[..n + 1], n, n);
    assert Declared(declared)[port] == port;
    DeclaredAppend(declared, arg);
    AppendDeclared(declared, arg);
    PlacedGrows(slots, n, Placed(args), arg);
  }

  lemma PlacedGrows(slots: seq<string>, n: nat, placed: seq<PciArg>, arg: PciArg)
    requires WellFormed(slots) && n < |slots| && InPlace(slots[..n], placed)
    requires arg == Vfio(slots[n], PortOf(slots[..n + 1], n), FunctionNumber(slots[n]))
    ensures InPlace(slots[..n + 1], placed + [arg])
  {
    forall k | 0 <= k < n ensures PortOf(slots[..n], k) == PortOf(slots[..n + 1], k) {
      PortStays(slots, n, k);
    }
  }

  // The functions of one device, and only they, share a root port, each at the address
  // that is behind its dot.
  ghost predicate SharedByDevice(slots: seq<string>, args: seq<PciArg>) {
    && |Placed(args)| == |slots|
    && forall i, j, n: nat, m: nat ::
         0 <= i < |slots| && 0 <= j < |slots| && FirstDot(slots[i], n) && FirstDot(slots[j], m) ==>
           && Placed(args)[i].Vfio? && Placed(args)[j].Vfio?
           && Placed(args)[i].function_ == slots[i][n + 1..]
           && (Placed(args)[i].rootPort == Placed(args)[j].rootPort <==> slots[i][..n] == slots[j][..m])
  }

  lemma LaidOutIsShared(slots: seq<string>, args: seq<PciArg>)
    requires WellFormed(slots) && LaidOut(slots, args)
    ensures SharedByDevice(slots, args)
  {
    forall i, j, n: nat, m: nat
      | 0 <= i < |slots| && 0 <= j < |slots| && FirstDot(slots[i], n) && FirstDot(slots[j], m)
      ensures PortOf(slots, i) == PortOf(slots, j) <==> slots[i][..n] == slots[j][..m]
      ensures FunctionNumber(slots[i]) == slots[i][n + 1..]
    {
      FunctionsOfADeviceShare(slots, i, j, n, m);
    }
  }

  // A malformed address ends the driver, however far it got.
  method AssignRootPorts(slots: seq<string>) returns (result: Option<seq<PciArg>>)
    ensures result.Some? <==> WellFormed(slots)
    ensures result.Some? ==> LaidOut(slots, result.value)
    ensures result.Some? ==> SharedByDevice(slots, result.value)
  {
    var rootPorts: map<string, nat> := map[];
    var args: seq<PciArg> := [];
    var n := 0;
    while n < |slots|
      invariant n <= |slots| && WellFormed(slots[..n])
      invariant Indexes(rootPorts, Addresses(slots[..n]))
      invariant LaidOut(slots[..n], args)
    {
      if '.' !in slots[n] {
        return None;
      }
      assert slots[..n + 1] == slots[..n] + [slots[n]];
      args, rootPorts := PlaceDevice(slots[..n], slots[n], args, rootPorts);
      n := n + 1;
    }
    assert slots[..n] == slots;
    result := Some(args);
    LaidOutIsShared(slots, args);
  }

  // A new address gets a new root port, numbered by how many there are.
  method PlaceDevice(placed: seq<string>, slot: string, args: seq<PciArg>, rootPorts: map<string, nat>)
    returns (args': seq<PciArg>, rootPorts': map<string, nat>)
    requires WellFormed(placed) && '.' in slot
    requires Indexes(rootPorts, Addresses(placed)) && LaidOut(placed, args)
    ensures Indexes(rootPorts', Addresses(placed + [slot])) && LaidOut(placed + [slot], args')
  {
    ghost var slots, n := placed + [slot], |placed|;
    assert slots[..n] == placed && slots[..n + 1] == slots;
    PlaceStep(slots, n, args);
    args', rootPorts' := args, rootPorts;
    var newId := |rootPorts|;
    if Address(slot) !in rootPorts {
      args' := args' + [RootPort(newId)];
      IndexNewAddress(rootPorts, Addresses(placed), Address(slot));
      rootPorts' := rootPorts'[Address(slot) := newId];
    }
    args' := args' + [Vfio(slot, rootPorts'[Address(slot)], FunctionNumber(slot))];
  }
}
