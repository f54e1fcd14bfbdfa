/**
 Making a bridge's ports follow a configuration. What a pass does is described by a plan, a sequence
 of actions; the imperative passes below are proved to carry out exactly that plan.
 */
module Reconcile {
  import opened Configuration
  import opened Netlink
  import opened Management

  /** What the egress passes read and change: the links and the port table. */
  datatype Plane = Plane(net: Net, ports: PortTable)

  datatype Action =
    | Release(name: string)
    | Attach(name: string)
    | DropVlan(vlan: EgressVlanInterface)
    | PutVlan(vlan: EgressVlanInterface)

  function VlanKind(v: EgressVlanInterface): Kind {
    Vlan(v.id, IsServiceTag(v))
  }

  /** Name and kind of the link of an entry, for each protocol. */
  lemma NameAndKind(parent: string, protocol: string, id: int)
    ensures var v := EgressVlanInterface(parent, protocol, id);
            if protocol == "802.1ad"
            then VlanInterfaceName(v) == parent + "." + PrintInt(id) + "ad" && VlanKind(v) == Vlan(id, true)
            else VlanInterfaceName(v) == parent + "." + PrintInt(id) && VlanKind(v) == Vlan(id, false)
  {
  }

  // ----- One action -----

  /** Takes a port off the bridge; only a port recorded as managed is touched in the kernel. */
  function PerformRelease(faults: Faults, br: Handle, p: Plane, name: string): Plane {
    var forgotten := RemovePort(p.ports, br.name, name);
    if !PortManaged(p.ports, br.name, name) then Plane(p.net, forgotten)
    else if name !in p.net.links || p.net.links[name].master == 0 then p
    else
      var net := p.net.LinkSetNoMaster(faults, name);
      Plane(net, if net.Succeeded() then forgotten else p.ports)
  }

  /** Puts a link on the bridge, provided it has no master. */
  function PerformAttach(faults: Faults, br: Handle, p: Plane, name: string): Plane {
    if name !in p.net.links || p.net.links[name].master != 0 then p
    else if p.net.links[name].master == br.index then Plane(p.net, SetPort(p.ports, br.name, name, false))
    else
      var net := p.net.LinkSetMaster(faults, name, br);
      Plane(net, if net.Succeeded() then SetPort(p.ports, br.name, name, true) else p.ports)
  }

  /** Takes a VLAN link off the bridge and deletes it, if it is recorded as managed. */
  function PerformDrop(faults: Faults, br: Handle, p: Plane, name: string): Plane {
    var forgotten := RemovePort(p.ports, br.name, name);
    if !PortManaged(p.ports, br.name, name) then Plane(p.net, forgotten)
    else if name !in p.net.links || p.net.links[name].master == 0 then p
    else
      var off := p.net.LinkSetNoMaster(faults, name);
      if !off.Succeeded() then Plane(off, p.ports)
      else
        var gone := off.LinkDel(faults, Handle(name, off.links[name].index));
        Plane(gone, if gone.Succeeded() then forgotten else p.ports)
  }

  /** Moves a link to the bridge unless it is there already. */
  function PerformEnslave(faults: Faults, br: Handle, p: Plane, name: string): Plane
    requires name in p.net.links
  {
    if p.net.links[name].master == br.index then p
    else p.(net := p.net.LinkSetMaster(faults, name, br))
  }

  /** Creates a VLAN link when it is missing, records it, and only then enslaves it. */
  function PerformPut(faults: Faults, br: Handle, p: Plane, parent: string, name: string, kind: Kind): Plane {
    if parent !in p.net.links then p
    else if name in p.net.links then
      PerformEnslave(faults, br, p.(ports := SetPort(p.ports, br.name, name, false)), name)
    else
      var added := p.net.LinkAdd(faults, name, kind, p.net.links[parent].index);
      if !added.Succeeded() then p.(net := added)
      else
        var up := added.LinkSetUp(faults, name);
        if !up.Succeeded() then p.(net := up)
        else PerformEnslave(faults, br, Plane(up, SetPort(p.ports, br.name, name, true)), name)
  }

  function Perform(faults: Faults, br: Handle, p: Plane, a: Action): Plane {
    match a
    case Release(name) => PerformRelease(faults, br, p, name)
    case Attach(name) => PerformAttach(faults, br, p, name)
    case DropVlan(v) => PerformDrop(faults, br, p, VlanInterfaceName(v))
    case PutVlan(v) => PerformPut(faults, br, p, v.name, VlanInterfaceName(v), VlanKind(v))
  }

  // ----- Plans -----

  function PerformAll(faults: Faults, br: Handle, p: Plane, plan: seq<Action>): Plane {
    if plan == [] then p
    else Perform(faults, br, PerformAll(faults, br, p, plan[..|plan| - 1]), plan[|plan| - 1])
  }

  lemma PerformOneMore(faults: Faults, br: Handle, p: Plane, plan: seq<Action>, a: Action)
    ensures PerformAll(faults, br, p, plan + [a]) == Perform(faults, br, PerformAll(faults, br, p, plan), a)
  {
    assert (plan + [a])[..|plan|] == plan;
  }

  lemma {:induction false} PerformConcat(faults: Faults, br: Handle, p: Plane, first: seq<Action>, second: seq<Action>)
    ensures PerformAll(faults, br, p, first + second)
            == PerformAll(faults, br, PerformAll(faults, br, p, first), second)
  {
    if second == [] {
      assert first + second == first;
    } else {
      var front, last := second[..|second| - 1], second[|second| - 1];
      assert first + second == first + front + [last] && second == front + [last];
      PerformConcat(faults, br, p, first, front);
      PerformOneMore(faults, br, p, first + front, last);
      PerformOneMore(faults, br, PerformAll(faults, br, p, first), front, last);
    }
  }

  lemma PerformNext(faults: Faults, br: Handle, p: Plane, plan: seq<Action>, k: nat)
    requires k < |plan|
    ensures PerformAll(faults, br, p, plan[..k + 1])
            == Perform(faults, br, PerformAll(faults, br, p, plan[..k]), plan[k])
  {
    assert plan[..k + 1][..k] == plan[..k];
  }

  lemma ActionKeepsBridges(faults: Faults, br: Handle, p: Plane, a: Action)
    ensures Perform(faults, br, p, a).ports.Keys == p.ports.Keys
  {
  }

  lemma {:induction false} PlanKeepsBridges(faults: Faults, br: Handle, p: Plane, plan: seq<Action>)
    ensures PerformAll(faults, br, p, plan).ports.Keys == p.ports.Keys
  {
    if plan != [] {
      var front := plan[..|plan| - 1];
      PlanKeepsBridges(faults, br, p, front);
      ActionKeepsBridges(faults, br, PerformAll(faults, br, p, front), plan[|plan| - 1]);
    }
  }

  lemma ActionGrowsLog(faults: Faults, br: Handle, p: Plane, a: Action)
    ensures p.net.log <= Perform(faults, br, p, a).net.log
  {
  }

  lemma {:induction false} PlanGrowsLog(faults: Faults, br: Handle, p: Plane, plan: seq<Action>)
    ensures p.net.log <= PerformAll(faults, br, p, plan).net.log
  {
    if plan != [] {
      var front := plan[..|plan| - 1];
      PlanGrowsLog(faults, br, p, front);
      ActionGrowsLog(faults, br, PerformAll(faults, br, p, front), plan[|plan| - 1]);
    }
  }

  /** The entries of xs that do not occur in ys, in order and with repetitions. */
  function Missing<T(==)>(xs: seq<T>, ys: seq<T>): seq<T> {
    if xs == [] then []
    else
      var front := Missing(xs[..|xs| - 1], ys);
      if xs[|xs| - 1] in ys then front else front + [xs[|xs| - 1]]
  }

  lemma {:induction false} MissingIff<T>(xs: seq<T>, ys: seq<T>, x: T)
    ensures x in Missing(xs, ys) <==> x in xs && x !in ys
  {
    if xs != [] {
      assert xs == xs[..|xs| - 1] + [xs[|xs| - 1]];
      MissingIff(xs[..|xs| - 1], ys, x);
    }
  }

  function Releases(vs: seq<EgressInterface>): (plan: seq<Action>)
    ensures |plan| == |vs| && forall i :: 0 <= i < |vs| ==> plan[i] == Release(vs[i].name)
  {
    seq(|vs|, i requires 0 <= i < |vs| => Release(vs[i].name))
  }

  function Attaches(vs: seq<EgressInterface>): (plan: seq<Action>)
    ensures |plan| == |vs| && forall i :: 0 <= i < |vs| ==> plan[i] == Attach(vs[i].name)
  {
    seq(|vs|, i requires 0 <= i < |vs| => Attach(vs[i].name))
  }

  function Drops(vs: seq<EgressVlanInterface>): (plan: seq<Action>)
    ensures |plan| == |vs| && forall i :: 0 <= i < |vs| ==> plan[i] == DropVlan(vs[i])
  {
    seq(|vs|, i requires 0 <= i < |vs| => DropVlan(vs[i]))
  }

  function Puts(vs: seq<EgressVlanInterface>): (plan: seq<Action>)
    ensures |plan| == |vs| && forall i :: 0 <= i < |vs| ==> plan[i] == PutVlan(vs[i])
  {
    seq(|vs|, i requires 0 <= i < |vs| => PutVlan(vs[i]))
  }

  lemma PlansSplit(es: seq<EgressInterface>, vs: seq<EgressVlanInterface>)
    ensures es != [] ==>
              && Releases(es)[..|es| - 1] == Releases(es[..|es| - 1])
              && Attaches(es)[..|es| - 1] == Attaches(es[..|es| - 1])
    ensures vs != [] ==> Drops(vs)[..|vs| - 1] == Drops(vs[..|vs| - 1]) && Puts(vs)[..|vs| - 1] == Puts(vs[..|vs| - 1])
  {
  }

  function EgressPlan(oldList: seq<EgressInterface>, newList: seq<EgressInterface>): seq<Action> {
    Releases(Missing(oldList, newList)) + Attaches(Missing(newList, oldList))
  }

  function VlanPlan(oldList: seq<EgressVlanInterface>, newList: seq<EgressVlanInterface>): seq<Action> {
    Drops(Missing(oldList, newList)) + Puts(Missing(newList, oldList))
  }

  lemma MissingNames(xs: seq<EgressInterface>, ys: seq<EgressInterface>)
    ensures EgressNamesOf(Missing(xs, ys)) == EgressNamesOf(xs) - EgressNamesOf(ys)
  {
    forall e | e in xs || e in Missing(xs, ys) {
      MissingIff(xs, ys, e);
    }
    forall e | e in xs && e.name in EgressNamesOf(ys)
      ensures e in ys
    {
      var f :| f in ys && f.name == e.name;
      assert f == e;
    }
  }

  lemma InPlanIff(es: seq<EgressInterface>, name: string)
    ensures Release(name) in Releases(es) <==> name in EgressNamesOf(es)
    ensures Attach(name) in Attaches(es) <==> name in EgressNamesOf(es)
  {
    if name in EgressNamesOf(es) {
      var e :| e in es && e.name == name;
      var i :| 0 <= i < |es| && es[i] == e;
      assert Releases(es)[i] == Release(name) && Attaches(es)[i] == Attach(name);
    }
  }

  /** The egress plan releases the names that go and attaches the names that come. */
  lemma EgressPlanIs(oldList: seq<EgressInterface>, newList: seq<EgressInterface>, name: string)
    ensures var plan, was, now := EgressPlan(oldList, newList), EgressNamesOf(oldList), EgressNamesOf(newList);
            && (Release(name) in plan <==> name in was && name !in now)
            && (Attach(name) in plan <==> name in now && name !in was)
            && forall a :: a in plan ==> a.Release? || a.Attach?
  {
    var toRemove, toAdd := Missing(oldList, newList), Missing(newList, oldList);
    MissingNames(oldList, newList);
    MissingNames(newList, oldList);
    InPlanIff(toRemove, name);
    InPlanIff(toAdd, name);
    assert EgressPlan(oldList, newList) == Releases(toRemove) + Attaches(toAdd);
  }

  // ----- The passes as the daemon runs them -----

  /** The nested search loops that compute `tobeRemove` and `tobeAdd`. */
  method FindMissing<T(==)>(xs: seq<T>, ys: seq<T>) returns (missing: seq<T>)
    ensures missing == Missing(xs, ys)
  {
    missing := [];
    for i := 0 to |xs|
      invariant missing == Missing(xs[..i], ys)
    {
      var found := false;
      for j := 0 to |ys|
        invariant found <==> xs[i] in ys[..j]
      {
        if xs[i] == ys[j] {
          found := true;
        }
      }
      assert ys[..|ys|] == ys;
      assert xs[..i + 1][..i] == xs[..i];
      if !found {
        missing := missing + [xs[i]];
      }
    }
    assert xs[..|xs|] == xs;
  }

  method ReleaseAll(kernel: Kernel, info: ManagedBridgePortsInfo, br: Handle, tobeRemove: seq<EgressInterface>)
    modifies kernel`net, info
    ensures Plane(kernel.net, info.managedBridgePorts)
            == PerformAll(kernel.faults, br, old(Plane(kernel.net, info.managedBridgePorts)), Releases(tobeRemove))
  {
    ghost var start, plan := Plane(kernel.net, info.managedBridgePorts), Releases(tobeRemove);
    for i := 0 to |tobeRemove|
      invariant Plane(kernel.net, info.managedBridgePorts) == PerformAll(kernel.faults, br, start, plan[..i])
    {
      PerformNext(kernel.faults, br, start, plan, i);
      var name := tobeRemove[i].name;
      if info.IsPortManaged(br.name, name) {
        if name !in kernel.net.links {
          continue;
        }
        if kernel.net.links[name].master == 0 {
          continue;
        }
        var ok := kernel.LinkSetNoMaster(name);
        if !ok {
          continue;
        }
      }
      var _ := info.RemovePortManagement(br.name, name);
    }
    assert plan[..|plan|] == plan;
  }

  method AttachAll(kernel: Kernel, info: ManagedBridgePortsInfo, br: Handle, tobeAdd: seq<EgressInterface>)
    modifies kernel`net, info
    ensures Plane(kernel.net, info.managedBridgePorts)
            == PerformAll(kernel.faults, br, old(Plane(kernel.net, info.managedBridgePorts)), Attaches(tobeAdd))
  {
    ghost var start, plan := Plane(kernel.net, info.managedBridgePorts), Attaches(tobeAdd);
    for i := 0 to |tobeAdd|
      invariant Plane(kernel.net, info.managedBridgePorts) == PerformAll(kernel.faults, br, start, plan[..i])
    {
      PerformNext(kernel.faults, br, start, plan, i);
      var name := tobeAdd[i].name;
      if name !in kernel.net.links {
        continue;
      }
      if kernel.net.links[name].master != 0 {
        continue;
      }
      if kernel.net.links[name].master == br.index {
        // Not reached in a real kernel, whose indices start at 1.
        var _ := info.SetPortManagement(br.name, name, false);
      } else {
        var ok := kernel.LinkSetMaster(name, br);
        if !ok {
          continue;
        }
        var _ := info.SetPortManagement(br.name, name, true);
      }
    }
    assert plan[..|plan|] == plan;
  }

  method EgressInterfaceReconcile(kernel: Kernel, info: ManagedBridgePortsInfo, br: Handle,
                                  oldList: seq<EgressInterface>, newList: seq<EgressInterface>)
    modifies kernel`net, info
    ensures Plane(kernel.net, info.managedBridgePorts)
            == PerformAll(kernel.faults, br, old(Plane(kernel.net, info.managedBridgePorts)),
                          EgressPlan(oldList, newList))
  {
    ghost var start := Plane(kernel.net, info.managedBridgePorts);
    var tobeRemove := FindMissing(oldList, newList);
    var tobeAdd := FindMissing(newList, oldList);
    ReleaseAll(kernel, info, br, tobeRemove);
    AttachAll(kernel, info, br, tobeAdd);
    PerformConcat(kernel.faults, br, start, Releases(tobeRemove), Attaches(tobeAdd));
  }

  method DropAll(kernel: Kernel, info: ManagedBridgePortsInfo, br: Handle, tobeRemove: seq<EgressVlanInterface>)
    modifies kernel`net, info
    ensures Plane(kernel.net, info.managedBridgePorts)
            == PerformAll(kernel.faults, br, old(Plane(kernel.net, info.managedBridgePorts)), Drops(tobeRemove))
  {
    ghost var start, plan := Plane(kernel.net, info.managedBridgePorts), Drops(tobeRemove);
    for i := 0 to |tobeRemove|
      invariant Plane(kernel.net, info.managedBridgePorts) == PerformAll(kernel.faults, br, start, plan[..i])
    {
      PerformNext(kernel.faults, br, start, plan, i);
      var name := VlanInterfaceName(tobeRemove[i]);
      if info.IsPortManaged(br.name, name) {
        if name !in kernel.net.links {
          continue;
        }
        var link := kernel.net.links[name];
        if link.master == 0 {
          continue;
        }
        var ok := kernel.LinkSetNoMaster(name);
        if !ok {
          continue;
        }
        ok := kernel.LinkDel(Handle(name, link.index));
        if !ok {
          continue;
        }
      }
      var _ := info.RemovePortManagement(br.name, name);
    }
    assert plan[..|plan|] == plan;
  }

  method PutAll(kernel: Kernel, info: ManagedBridgePortsInfo, br: Handle, tobeAdd: seq<EgressVlanInterface>)
    modifies kernel`net, info
    ensures Plane(kernel.net, info.managedBridgePorts)
            == PerformAll(kernel.faults, br, old(Plane(kernel.net, info.managedBridgePorts)), Puts(tobeAdd))
  {
    ghost var start, plan := Plane(kernel.net, info.managedBridgePorts), Puts(tobeAdd);
    for i := 0 to |tobeAdd|
      invariant Plane(kernel.net, info.managedBridgePorts) == PerformAll(kernel.faults, br, start, plan[..i])
    {
      PerformNext(kernel.faults, br, start, plan, i);
      var v := tobeAdd[i];
      if v.name !in kernel.net.links {
        continue;
      }
      var parent := kernel.net.links[v.name];
      var name := VlanInterfaceName(v);
      if name !in kernel.net.links {
        var ok := kernel.LinkAdd(name, VlanKind(v), parent.index);
        if !ok {
          continue;
        }
        ok := kernel.LinkSetUp(name);
        if !ok {
          continue;
        }
        var _ := info.SetPortManagement(br.name, name, true);
      } else {
        var _ := info.SetPortManagement(br.name, name, false);
      }
      if kernel.net.links[name].master == br.index {
        continue;
      }
      var _ := kernel.LinkSetMaster(name, br);
    }
    assert plan[..|plan|] == plan;
  }

  method EgressVlanInterfaceReconcile(kernel: Kernel, info: ManagedBridgePortsInfo, br: Handle,
                                      oldList: seq<EgressVlanInterface>, newList: seq<EgressVlanInterface>)
    modifies kernel`net, info
    ensures Plane(kernel.net, info.managedBridgePorts)
            == PerformAll(kernel.faults, br, old(Plane(kernel.net, info.managedBridgePorts)),
                          VlanPlan(oldList, newList))
  {
    ghost var start := Plane(kernel.net, info.managedBridgePorts);
    var tobeRemove := FindMissing(oldList, newList);
    var tobeAdd := FindMissing(newList, oldList);
    DropAll(kernel, info, br, tobeRemove);
    PutAll(kernel, info, br, tobeAdd);
    PerformConcat(kernel.faults, br, start, Drops(tobeRemove), Puts(tobeAdd));
  }
}
