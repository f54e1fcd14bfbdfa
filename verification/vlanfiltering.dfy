/**
 VLAN filtering: the egress ports of a bridge are made to carry the PVIDs of its other ports.
 One set of wanted ids is shared by all egress ports, and each port takes out of it the ids it
 had already.
 */
module VlanFiltering {
  import opened Configuration
  import opened Netlink

  /** What one port ends with when the ids `wanted` are asked of it. */
  function Reconciled(vlans: PortVlans, wanted: set<nat>): PortVlans {
    var kept := vlans - (vlans.Keys - wanted);
    if wanted <= vlans.Keys then WithVlan(kept, 1, VlanFlags(true, true))
    else kept + map v | v in wanted && v !in vlans :: VlanFlags(false, false)
  }

  /** The PVIDs found on the ports of the bridge that are not egress interfaces. */
  function Desired(links: map<string, Link>, vlans: map<nat, PortVlans>, bridge: nat, egress: set<string>): set<nat> {
    set n, v | n in links && links[n].master == bridge && n !in egress
               && v in VlansAt(vlans, links[n].index) && VlansAt(vlans, links[n].index)[v].pvid :: v
  }

  /** What is left of the shared set after ports with the given ids have been visited. */
  function Remaining(wanted: set<nat>, visited: seq<set<nat>>): set<nat> {
    if visited == [] then wanted
    else Remaining(wanted, visited[..|visited| - 1]) - visited[|visited| - 1]
  }

  function IdsOf(links: map<string, Link>, vlans: map<nat, PortVlans>, ports: seq<string>): (ids: seq<set<nat>>)
    requires forall n :: n in ports ==> n in links
    ensures |ids| == |ports|
    ensures forall k :: 0 <= k < |ports| ==> ids[k] == VlansAt(vlans, links[ports[k]].index).Keys
  {
    seq(|ports|, k requires 0 <= k < |ports| => VlansAt(vlans, links[ports[k]].index).Keys)
  }

  predicate Distinct<T(==)>(xs: seq<T>) {
    forall i, j :: 0 <= i < j < |xs| ==> xs[i] != xs[j]
  }

  /** order lists the egress ports of the bridge, each once. */
  predicate ListsEgressPorts(links: map<string, Link>, bridge: nat, egress: set<string>, order: seq<string>) {
    && Distinct(order)
    && (forall n :: n in order ==> n in links && links[n].master == bridge && n in egress)
    && (forall n :: n in links && links[n].master == bridge && n in egress ==> n in order)
  }

  predicate Touched(links: map<string, Link>, order: seq<string>, index: nat) {
    exists n :: n in order && n in links && links[n].index == index
  }

  /** A VLAN pass in which every call succeeded, the egress ports being visited in the given order. */
  ghost predicate FilteringPass(links: map<string, Link>, bridge: nat, egress: set<string>, order: seq<string>,
                                before: map<nat, PortVlans>, after: map<nat, PortVlans>)
  {
    && ListsEgressPorts(links, bridge, egress, order)
    && (forall i: nat :: !Touched(links, order, i) ==> VlansAt(after, i) == VlansAt(before, i))
    && (forall k :: 0 <= k < |order| ==>
          VlansAt(after, links[order[k]].index)
          == Reconciled(VlansAt(before, links[order[k]].index),
                        Remaining(Desired(links, before, bridge, egress), IdsOf(links, before, order)[..k])))
  }

  /** A VLAN pass: exact when every call succeeded, and confined to the egress ports whatever fails. */
  ghost predicate PassMade(links: map<string, Link>, bridge: nat, egress: set<string>, order: seq<string>,
                           before: map<nat, PortVlans>, after: map<nat, PortVlans>, reliable: bool)
  {
    && ListsEgressPorts(links, bridge, egress, order)
    && (forall i: nat :: !Touched(links, order, i) ==> VlansAt(after, i) == VlansAt(before, i))
    && (reliable && UniqueIndices(links) ==> FilteringPass(links, bridge, egress, order, before, after))
  }

  // ----- The pass as the daemon runs it -----

  /** A set of VLAN ids handed around by reference. */
  class VlanIdSet {
    var ids: set<nat>

    constructor ()
      ensures ids == {}
    {
      ids := {};
    }
  }

  method RemoveUnwanted(kernel: Kernel, index: nat, vlanInfo: PortVlans, newVlanIDs: VlanIdSet)
    modifies kernel`vlans, kernel`vlanCalls, newVlanIDs
    ensures kernel.vlanCalls >= old(kernel.vlanCalls)
    ensures newVlanIDs.ids == old(newVlanIDs.ids) - vlanInfo.Keys
    ensures forall i: nat :: i != index ==> VlansAt(kernel.vlans, i) == old(VlansAt(kernel.vlans, i))
    ensures old(VlansAt(kernel.vlans, index).Keys - (vlanInfo.Keys - newVlanIDs.ids))
            <= VlansAt(kernel.vlans, index).Keys
    ensures VlansAt(kernel.vlans, index).Keys <= old(VlansAt(kernel.vlans, index).Keys)
    ensures old(kernel.Reliable()) ==>
              VlansAt(kernel.vlans, index) == old(VlansAt(kernel.vlans, index) - (vlanInfo.Keys - newVlanIDs.ids))
  {
    var todo := vlanInfo.Keys;
    ghost var was, wanted := VlansAt(kernel.vlans, index), newVlanIDs.ids;
    while todo != {}
      invariant todo <= vlanInfo.Keys
      invariant kernel.vlanCalls >= old(kernel.vlanCalls)
      invariant newVlanIDs.ids == wanted - (vlanInfo.Keys - todo)
      invariant forall i: nat :: i != index ==> VlansAt(kernel.vlans, i) == old(VlansAt(kernel.vlans, i))
      invariant was.Keys - (vlanInfo.Keys - wanted) <= VlansAt(kernel.vlans, index).Keys <= was.Keys
      invariant old(kernel.Reliable()) ==> VlansAt(kernel.vlans, index) == was - (vlanInfo.Keys - todo - wanted)
    {
      var vid :| vid in todo;
      todo := todo - {vid};
      if vid !in newVlanIDs.ids {
        var _ := kernel.BridgeVlanDel(index, vid);
      } else {
        newVlanIDs.ids := newVlanIDs.ids - {vid};
      }
    }
  }

  method AddMissing(kernel: Kernel, index: nat, newVlanIDs: set<nat>)
    modifies kernel`vlans, kernel`vlanCalls
    ensures kernel.vlanCalls >= old(kernel.vlanCalls)
    ensures forall i: nat :: i != index ==> VlansAt(kernel.vlans, i) == old(VlansAt(kernel.vlans, i))
    ensures old(VlansAt(kernel.vlans, index).Keys) <= VlansAt(kernel.vlans, index).Keys
    ensures VlansAt(kernel.vlans, index).Keys <= old(VlansAt(kernel.vlans, index).Keys) + newVlanIDs
    ensures old(kernel.Reliable()) ==>
              VlansAt(kernel.vlans, index)
              == old(VlansAt(kernel.vlans, index)) + map v | v in newVlanIDs :: VlanFlags(false, false)
  {
    var todo := newVlanIDs;
    ghost var was := VlansAt(kernel.vlans, index);
    while todo != {}
      invariant todo <= newVlanIDs
      invariant kernel.vlanCalls >= old(kernel.vlanCalls)
      invariant forall i: nat :: i != index ==> VlansAt(kernel.vlans, i) == old(VlansAt(kernel.vlans, i))
      invariant was.Keys <= VlansAt(kernel.vlans, index).Keys <= was.Keys + newVlanIDs
      invariant old(kernel.Reliable()) ==>
                  VlansAt(kernel.vlans, index) == was + map v | v in newVlanIDs - todo :: VlanFlags(false, false)
    {
      var vid :| vid in todo;
      todo := todo - {vid};
      var _ := kernel.BridgeVlanAdd(index, vid, VlanFlags(false, false));
    }
    assert newVlanIDs - todo == newVlanIDs;
  }

  lemma ReconciledByParts(vlans: PortVlans, wanted: set<nat>)
    ensures var kept, missing := vlans - (vlans.Keys - wanted), wanted - vlans.Keys;
            Reconciled(vlans, wanted) == if missing == {} then WithVlan(kept, 1, VlanFlags(true, true))
                                         else kept + map v | v in missing :: VlanFlags(false, false)
  {
    var missing := wanted - vlans.Keys;
    assert missing == {} <==> wanted <= vlans.Keys by {
      assert forall v :: v in missing <==> v in wanted && v !in vlans;
    }
  }

  /** One egress port. vlanInfo is the listing taken at the start of the pass. */
  method BridgeVlanIDReconcile(kernel: Kernel, index: nat, vlanInfo: map<nat, PortVlans>, newVlanIDs: VlanIdSet)
    modifies kernel`vlans, kernel`vlanCalls, newVlanIDs
    ensures kernel.vlanCalls >= old(kernel.vlanCalls)
    ensures newVlanIDs.ids == old(newVlanIDs.ids) - VlansAt(vlanInfo, index).Keys
    ensures forall i: nat :: i != index ==> VlansAt(kernel.vlans, i) == old(VlansAt(kernel.vlans, i))
    ensures old(kernel.Reliable()) && old(VlansAt(kernel.vlans, index)) == VlansAt(vlanInfo, index) ==>
              VlansAt(kernel.vlans, index) == Reconciled(VlansAt(vlanInfo, index), old(newVlanIDs.ids))
    // Whatever fails, ids that are wanted and present stay, and nothing else than wanted ids and VLAN 1 is added.
    ensures old(VlansAt(kernel.vlans, index)) == VlansAt(vlanInfo, index) ==>
              && VlansAt(vlanInfo, index).Keys * old(newVlanIDs.ids) <= VlansAt(kernel.vlans, index).Keys
              && VlansAt(kernel.vlans, index).Keys <= VlansAt(vlanInfo, index).Keys + old(newVlanIDs.ids) + {1}
  {
    ghost var had, wanted := VlansAt(vlanInfo, index), newVlanIDs.ids;
    RemoveUnwanted(kernel, index, VlansAt(vlanInfo, index), newVlanIDs);
    ReconciledByParts(had, wanted);
    if newVlanIDs.ids == {} {
      var _ := kernel.BridgeVlanAdd(index, 1, VlanFlags(true, true));
    } else {
      AddMissing(kernel, index, newVlanIDs.ids);
    }
  }

  method GetBridgePorts(kernel: Kernel, bridge: nat) returns (ports: seq<string>)
    ensures Distinct(ports)
    ensures forall n :: n in ports <==> n in kernel.net.links && kernel.net.links[n].master == bridge
  {
    ports := [];
    var todo := kernel.net.links.Keys;
    while todo != {}
      invariant todo <= kernel.net.links.Keys
      invariant Distinct(ports)
      invariant forall n :: n in ports <==> n in kernel.net.links && n !in todo && kernel.net.links[n].master == bridge
    {
      var name :| name in todo;
      todo := todo - {name};
      if kernel.net.links[name].master == bridge {
        ports := ports + [name];
      }
    }
  }

  method CollectEgressNames(config: BridgeConfiguration) returns (names: set<string>)
    ensures names == EgressNames(config)
  {
    names := {};
    var egress, vlans := config.egressInterfaces, config.egressVlanInterfaces;
    for i := 0 to |egress|
      invariant names == EgressNamesOf(egress[..i])
    {
      assert egress[..i + 1] == egress[..i] + [egress[i]];
      names := names + {egress[i].name};
    }
    ghost var first := names;
    for i := 0 to |vlans|
      invariant names == first + VlanNamesOf(vlans[..i])
    {
      assert vlans[..i + 1] == vlans[..i] + [vlans[i]];
      names := names + {VlanInterfaceName(vlans[i])};
    }
    assert egress[..|egress|] == egress && vlans[..|vlans|] == vlans;
  }

  method CollectDesired(kernel: Kernel, bridge: nat, egress: set<string>, ports: seq<string>)
    returns (wanted: VlanIdSet)
    requires forall n :: n in ports <==> n in kernel.net.links && kernel.net.links[n].master == bridge
    ensures fresh(wanted) && wanted.ids == Desired(kernel.net.links, kernel.vlans, bridge, egress)
  {
    wanted := new VlanIdSet();
    ghost var links := kernel.net.links;
    for i := 0 to |ports|
      invariant forall v :: v in wanted.ids <==>
                  exists n :: n in ports[..i] && n !in egress && v in VlansAt(kernel.vlans, links[n].index)
                              && VlansAt(kernel.vlans, links[n].index)[v].pvid
    {
      assert ports[..i + 1] == ports[..i] + [ports[i]];
      var name := ports[i];
      if name !in egress {
        var here := VlansAt(kernel.vlans, kernel.net.links[name].index);
        wanted.ids := wanted.ids + set v | v in here && here[v].pvid;
      }
    }
    assert ports[..|ports|] == ports;
  }

  /** The ports are visited in whatever order the kernel lists them; `order` reports it. */
  method BridgeVlanFilteringReconcile(kernel: Kernel, config: BridgeConfiguration, br: Handle)
    returns (ok: bool, ghost order: seq<string>)
    modifies kernel`vlans, kernel`vlanCalls, kernel`filtering
    ensures ok <==> br.index in old(kernel.filtering) || !kernel.vlanFaults(old(kernel.vlanCalls))
    ensures kernel.filtering == if ok then old(kernel.filtering) + {br.index} else old(kernel.filtering)
    ensures !ok ==> kernel.vlans == old(kernel.vlans)
    ensures ok ==> PassMade(kernel.net.links, br.index, EgressNames(config), order,
                            old(kernel.vlans), kernel.vlans, old(kernel.Reliable()))
  {
    order := [];
    if br.index !in kernel.filtering {
      ok := kernel.BridgeSetVlanFiltering(br.index);
      if !ok {
        return;
      }
    }
    ok := true;
    var vlanInfo := kernel.vlans;
    var egress := CollectEgressNames(config);
    var ports := GetBridgePorts(kernel, br.index);
    var wanted := CollectDesired(kernel, br.index, egress, ports);
    EgressPortsKeep(ports, egress);
    order := EgressPorts(ports, egress);
    ReconcileEgressPorts(kernel, egress, ports, vlanInfo, wanted);
    if old(kernel.Reliable()) && UniqueIndices(kernel.net.links) {
      VisitAllIsPass(kernel.net.links, br.index, egress, order, vlanInfo, kernel.vlans);
    }
  }

  /** The VLAN tables after the ports in `order` have been visited without a failure. */
  function VisitAll(links: map<string, Link>, vlanInfo: map<nat, PortVlans>, desired: set<nat>, order: seq<string>)
    : map<nat, PortVlans>
    requires forall n :: n in order ==> n in links
  {
    if order == [] then vlanInfo
    else
      var front := order[..|order| - 1];
      var index := links[order[|order| - 1]].index;
      VisitAll(links, vlanInfo, desired, front)
        [index := Reconciled(VlansAt(vlanInfo, index), Remaining(desired, IdsOf(links, vlanInfo, front)))]
  }

  lemma {:induction false} VisitAllLeavesOthers(links: map<string, Link>, vlanInfo: map<nat, PortVlans>,
                                                desired: set<nat>, order: seq<string>, i: nat)
    requires forall n :: n in order ==> n in links
    requires !Touched(links, order, i)
    ensures VlansAt(VisitAll(links, vlanInfo, desired, order), i) == VlansAt(vlanInfo, i)
  {
    if order != [] {
      VisitAllLeavesOthers(links, vlanInfo, desired, order[..|order| - 1], i);
    }
  }

  lemma IdsOfFront(links: map<string, Link>, vlanInfo: map<nat, PortVlans>, order: seq<string>, k: nat)
    requires k < |order| && forall n :: n in order ==> n in links
    ensures IdsOf(links, vlanInfo, order)[..k] == IdsOf(links, vlanInfo, order[..|order| - 1])[..k]
  {
  }

  lemma LastVisited(links: map<string, Link>, vlanInfo: map<nat, PortVlans>, desired: set<nat>, order: seq<string>)
    requires order != [] && forall n :: n in order ==> n in links
    ensures var k := |order| - 1;
            VlansAt(VisitAll(links, vlanInfo, desired, order), links[order[k]].index)
            == Reconciled(VlansAt(vlanInfo, links[order[k]].index),
                          Remaining(desired, IdsOf(links, vlanInfo, order)[..k]))
  {
    var front := order[..|order| - 1];
    assert IdsOf(links, vlanInfo, order)[..|front|] == IdsOf(links, vlanInfo, front) by {
      IdsOfFront(links, vlanInfo, order, |front|);
    }
  }

  lemma LastVisitLeaves(links: map<string, Link>, vlanInfo: map<nat, PortVlans>, desired: set<nat>, order: seq<string>,
                        i: nat)
    requires order != [] && forall n :: n in order ==> n in links
    requires links[order[|order| - 1]].index != i
    ensures VlansAt(VisitAll(links, vlanInfo, desired, order), i)
            == VlansAt(VisitAll(links, vlanInfo, desired, order[..|order| - 1]), i)
  {
  }

  lemma {:induction false} VisitAllAt(links: map<string, Link>, vlanInfo: map<nat, PortVlans>, desired: set<nat>,
                                      order: seq<string>, k: nat)
    requires UniqueIndices(links) && Distinct(order) && k < |order|
    requires forall n :: n in order ==> n in links
    ensures VlansAt(VisitAll(links, vlanInfo, desired, order), links[order[k]].index)
            == Reconciled(VlansAt(vlanInfo, links[order[k]].index),
                          Remaining(desired, IdsOf(links, vlanInfo, order)[..k]))
  {
    if k == |order| - 1 {
      LastVisited(links, vlanInfo, desired, order);
    } else {
      var front := order[..|order| - 1];
      assert front[k] == order[k] && order[k] != order[|order| - 1];
      VisitAllAt(links, vlanInfo, desired, front, k);
      IdsOfFront(links, vlanInfo, order, k);
      LastVisitLeaves(links, vlanInfo, desired, order, links[order[k]].index);
    }
  }

  lemma VisitAllIsPass(links: map<string, Link>, bridge: nat, egress: set<string>, order: seq<string>,
                       before: map<nat, PortVlans>, after: map<nat, PortVlans>)
    requires UniqueIndices(links) && ListsEgressPorts(links, bridge, egress, order)
    requires var done := VisitAll(links, before, Desired(links, before, bridge, egress), order);
             forall i: nat :: VlansAt(after, i) == VlansAt(done, i)
    ensures FilteringPass(links, bridge, egress, order, before, after)
  {
    var desired := Desired(links, before, bridge, egress);
    forall i: nat | !Touched(links, order, i)
      ensures VlansAt(after, i) == VlansAt(before, i)
    {
      VisitAllLeavesOthers(links, before, desired, order, i);
    }
    forall k | 0 <= k < |order|
      ensures VlansAt(after, links[order[k]].index)
              == Reconciled(VlansAt(before, links[order[k]].index),
                            Remaining(desired, IdsOf(links, before, order)[..k]))
    {
      VisitAllAt(links, before, desired, order, k);
    }
  }

  lemma VisitNext(links: map<string, Link>, vlanInfo: map<nat, PortVlans>, desired: set<nat>, order: seq<string>,
                  name: string)
    requires forall n :: n in order ==> n in links
    requires name in links
    ensures var index := links[name].index;
            var left := Remaining(desired, IdsOf(links, vlanInfo, order));
            && Remaining(desired, IdsOf(links, vlanInfo, order + [name])) == left - VlansAt(vlanInfo, index).Keys
            && VisitAll(links, vlanInfo, desired, order + [name])
               == VisitAll(links, vlanInfo, desired, order)[index := Reconciled(VlansAt(vlanInfo, index), left)]
            && (forall i: nat :: !Touched(links, order + [name], i) ==> !Touched(links, order, i) && i != index)
            && (UniqueIndices(links) && name !in order ==> !Touched(links, order, index))
  {
    var next := order + [name];
    assert next[..|order|] == order;
    assert IdsOf(links, vlanInfo, next)[..|order|] == IdsOf(links, vlanInfo, order);
  }

  /** The egress ports among `ports`, in the same order. */
  function EgressPorts(ports: seq<string>, egress: set<string>): seq<string> {
    if ports == [] then []
    else
      var front := EgressPorts(ports[..|ports| - 1], egress);
      var last := ports[|ports| - 1];
      if last in egress then front + [last] else front
  }

  lemma {:induction false} EgressPortsKeep(ports: seq<string>, egress: set<string>)
    requires Distinct(ports)
    ensures Distinct(EgressPorts(ports, egress))
    ensures forall n :: n in EgressPorts(ports, egress) <==> n in ports && n in egress
  {
    if ports != [] {
      var front, last := ports[..|ports| - 1], ports[|ports| - 1];
      assert ports == front + [last];
      assert last !in front;
      EgressPortsKeep(front, egress);
    }
  }

  /** Egress ports are visited in the order in which the ports are listed. */
  lemma {:induction false} EgressPortsInOrder(ports: seq<string>, egress: set<string>, a: nat, b: nat)
    requires a < b < |ports| && ports[a] in egress && ports[b] in egress
    ensures exists i, j :: && 0 <= i < j < |EgressPorts(ports, egress)|
                           && EgressPorts(ports, egress)[i] == ports[a] && EgressPorts(ports, egress)[j] == ports[b]
  {
    var front, order := ports[..|ports| - 1], EgressPorts(ports, egress);
    var before := EgressPorts(front, egress);
    if b < |front| {
      EgressPortsInOrder(front, egress, a, b);
      var i, j :| 0 <= i < j < |before| && before[i] == ports[a] && before[j] == ports[b];
      assert order[i] == ports[a] && order[j] == ports[b];
    } else {
      EgressPortListed(front, egress, a);
      var i :| 0 <= i < |before| && before[i] == ports[a];
      assert order[i] == ports[a] && order[|before|] == ports[b];
    }
  }

  lemma {:induction false} EgressPortListed(ports: seq<string>, egress: set<string>, a: nat)
    requires a < |ports| && ports[a] in egress
    ensures ports[a] in EgressPorts(ports, egress)
  {
    if a < |ports| - 1 {
      EgressPortListed(ports[..|ports| - 1], egress, a);
    }
  }

  lemma VisitAgrees(was: map<nat, PortVlans>, now: map<nat, PortVlans>, visited: map<nat, PortVlans>, index: nat,
                    vlans: PortVlans)
    requires forall i: nat :: VlansAt(was, i) == VlansAt(visited, i)
    requires forall i: nat :: i != index ==> VlansAt(now, i) == VlansAt(was, i)
    requires VlansAt(now, index) == vlans
    ensures forall i: nat :: VlansAt(now, i) == VlansAt(visited[index := vlans], i)
  {
  }

  method ReconcileEgressPorts(kernel: Kernel, egress: set<string>, ports: seq<string>,
                              vlanInfo: map<nat, PortVlans>, wanted: VlanIdSet)
    requires kernel.vlans == vlanInfo
    requires Distinct(ports) && forall n :: n in ports ==> n in kernel.net.links
    modifies kernel`vlans, kernel`vlanCalls, wanted
    ensures kernel.vlanCalls >= old(kernel.vlanCalls)
    ensures forall n :: n in EgressPorts(ports, egress) ==> n in kernel.net.links
    ensures old(kernel.Reliable()) && UniqueIndices(kernel.net.links) ==>
              forall i: nat :: VlansAt(kernel.vlans, i)
                == VlansAt(VisitAll(kernel.net.links, vlanInfo, old(wanted.ids), EgressPorts(ports, egress)), i)
    ensures forall i: nat :: !Touched(kernel.net.links, EgressPorts(ports, egress), i) ==>
              VlansAt(kernel.vlans, i) == VlansAt(vlanInfo, i)
  {
    ghost var links, desired := kernel.net.links, wanted.ids;
    ghost var exact := kernel.Reliable() && UniqueIndices(links);
    ghost var order := [];
    for i := 0 to |ports|
      invariant kernel.vlanCalls >= old(kernel.vlanCalls)
      invariant order == EgressPorts(ports[..i], egress)
      invariant forall n :: n in order ==> n in ports[..i] && n in links
      invariant forall i: nat :: !Touched(links, order, i) ==> VlansAt(kernel.vlans, i) == VlansAt(vlanInfo, i)
      invariant exact ==> wanted.ids == Remaining(desired, IdsOf(links, vlanInfo, order))
      invariant exact ==>
                  forall i: nat :: VlansAt(kernel.vlans, i) == VlansAt(VisitAll(links, vlanInfo, desired, order), i)
    {
      var name := ports[i];
      assert ports[..i + 1][..i] == ports[..i];
      assert ports[..i + 1] == ports[..i] + [name];
      if name in egress {
        assert name !in ports[..i];
        VisitNext(links, vlanInfo, desired, order, name);
        ghost var was, visited := kernel.vlans, VisitAll(links, vlanInfo, desired, order);
        BridgeVlanIDReconcile(kernel, kernel.net.links[name].index, vlanInfo, wanted);
        if exact {
          VisitAgrees(was, kernel.vlans, visited, links[name].index, VlansAt(kernel.vlans, links[name].index));
        }
        order := order + [name];
      }
    }
    assert ports[..|ports|] == ports;
  }
}
