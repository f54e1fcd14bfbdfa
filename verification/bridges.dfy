/** Setting up, updating and tearing down one bridge. */
module Bridges {
  import opened Configuration
  import opened Netlink
  import opened Management
  import opened VlanFiltering
  import opened Reconcile

  function EgressOf(config: Option<BridgeConfiguration>): seq<EgressInterface> {
    if config.None? then [] else config.value.egressInterfaces
  }

  function VlansOf(config: Option<BridgeConfiguration>): seq<EgressVlanInterface> {
    if config.None? then [] else config.value.egressVlanInterfaces
  }

  function UpdatePlan(oldConfig: Option<BridgeConfiguration>, config: BridgeConfiguration): seq<Action> {
    EgressPlan(EgressOf(oldConfig), config.egressInterfaces) + VlanPlan(VlansOf(oldConfig), config.egressVlanInterfaces)
  }

  function DrainPlan(config: BridgeConfiguration): seq<Action> {
    EgressPlan(config.egressInterfaces, []) + VlanPlan(config.egressVlanInterfaces, [])
  }

  function HandleOf(links: map<string, Link>, name: string): Handle
    requires name in links
  {
    Handle(name, links[name].index)
  }

  // ----- Effect on links and port table -----

  function AfterUpdate(faults: Faults, p: Plane, oldConfig: Option<BridgeConfiguration>,
                       config: BridgeConfiguration): Plane
  {
    if config.name !in p.net.links then p
    else PerformAll(faults, HandleOf(p.net.links, config.name), p, UpdatePlan(oldConfig, config))
  }

  function AfterConfigure(faults: Faults, p: Plane, config: BridgeConfiguration): Plane {
    var added := p.net.LinkAdd(faults, config.name, Bridge, 0);
    if !added.Succeeded() then p.(net := added)
    else
      var up := added.LinkSetUp(faults, config.name);
      if !up.Succeeded() then p.(net := up)
      else AfterUpdate(faults, Plane(up, p.ports), None, config)
  }

  predicate AllManaged(ports: map<string, bool>) {
    forall n :: n in ports ==> ports[n]
  }

  function AfterDrain(faults: Faults, p: Plane, config: BridgeConfiguration): Plane
    requires config.name in p.net.links
  {
    PerformAll(faults, HandleOf(p.net.links, config.name), p, DrainPlan(config))
  }

  function AfterUnconfigure(faults: Faults, p: Plane, config: BridgeConfiguration, isManaged: bool): Plane {
    if config.name !in p.net.links then p
    else
      var q := AfterDrain(faults, p, config);
      if isManaged && config.name in q.ports && AllManaged(q.ports[config.name])
      then q.(net := q.net.LinkDel(faults, HandleOf(p.net.links, config.name)))
      else q
  }

  /** A missing bridge, a managed bridge without a port table and a failed deletion are reported, nothing else. */
  predicate UnconfigureSucceeds(faults: Faults, p: Plane, config: BridgeConfiguration, isManaged: bool) {
    config.name in p.net.links
    && var q := AfterDrain(faults, p, config);
       isManaged ==>
         config.name in q.ports
         && (AllManaged(q.ports[config.name]) ==> q.net.LinkDel(faults, HandleOf(p.net.links, config.name)).Succeeded())
  }

  // ----- The operations as the daemon runs them -----

  /** Reports an error only when the bridge is missing; failures of the three passes are logged and dropped. */
  method BridgeUpdate(kernel: Kernel, info: ManagedBridgePortsInfo, oldConfig: Option<BridgeConfiguration>,
                      config: BridgeConfiguration)
    returns (ok: bool, ghost order: seq<string>)
    modifies kernel`net, kernel`vlans, kernel`vlanCalls, kernel`filtering, info
    ensures Plane(kernel.net, info.managedBridgePorts)
            == AfterUpdate(kernel.faults, old(Plane(kernel.net, info.managedBridgePorts)), oldConfig, config)
    ensures ok <==> config.name in old(kernel.net.links)
    // The closing VLAN pass is made on a bridge only, and if VLAN filtering is on or can be switched on.
    ensures kernel.filtering == if old(config.name in kernel.net.links && kernel.net.links[config.name].kind == Bridge
                                       && !kernel.vlanFaults(kernel.vlanCalls))
                                then old(kernel.filtering) + {old(kernel.net.links)[config.name].index}
                                else old(kernel.filtering)
    ensures if old(config.name in kernel.net.links && kernel.net.links[config.name].kind == Bridge
                   && (kernel.net.links[config.name].index in kernel.filtering || !kernel.vlanFaults(kernel.vlanCalls)))
            then PassMade(kernel.net.links, old(kernel.net.links)[config.name].index, EgressNames(config), order,
                          old(kernel.vlans), kernel.vlans, old(kernel.Reliable()))
            else kernel.vlans == old(kernel.vlans)
  {
    ghost var start := Plane(kernel.net, info.managedBridgePorts);
    order := [];
    if config.name !in kernel.net.links {
      return false, order;
    }
    var bridge := kernel.net.links[config.name];
    var br := Handle(config.name, bridge.index);
    EgressInterfaceReconcile(kernel, info, br, EgressOf(oldConfig), config.egressInterfaces);
    EgressVlanInterfaceReconcile(kernel, info, br, VlansOf(oldConfig), config.egressVlanInterfaces);
    PerformConcat(kernel.faults, br, start, EgressPlan(EgressOf(oldConfig), config.egressInterfaces),
                  VlanPlan(VlansOf(oldConfig), config.egressVlanInterfaces));
    // On a link of another kind the daemon stops here with a failed type assertion.
    if bridge.kind == Bridge {
      var _, visited := BridgeVlanFilteringReconcile(kernel, config, br);
      order := visited;
    }
    ok := true;
  }

  /** Creating the bridge and setting it up are the two calls whose failure is reported. */
  predicate ConfigureSucceeds(faults: Faults, net: Net, name: string) {
    name !in net.links && !faults(|net.log|) && !faults(|net.log| + 1)
  }

  method BridgeConfigured(kernel: Kernel, info: ManagedBridgePortsInfo, config: BridgeConfiguration)
    returns (ok: bool, ghost order: seq<string>)
    modifies kernel`net, kernel`vlans, kernel`vlanCalls, kernel`filtering, info
    ensures Plane(kernel.net, info.managedBridgePorts)
            == AfterConfigure(kernel.faults, old(Plane(kernel.net, info.managedBridgePorts)), config)
    ensures ok <==> ConfigureSucceeds(kernel.faults, old(kernel.net), config.name)
    ensures kernel.filtering == if config.name !in old(kernel.net.links) && !kernel.faults(old(|kernel.net.log|))
                                then old(kernel.filtering) + {old(kernel.net.next)}
                                else old(kernel.filtering)
    // The fresh bridge filters VLANs from the start, so its first VLAN pass is always made.
    ensures if ok
            then PassMade(kernel.net.links, old(kernel.net.next), EgressNames(config), order,
                          old(kernel.vlans), kernel.vlans, old(kernel.Reliable()))
            else kernel.vlans == old(kernel.vlans)
  {
    order := [];
    ok := kernel.BridgeAdd(config.name);
    if !ok {
      return;
    }
    ok := kernel.LinkSetUp(config.name);
    if !ok {
      return;
    }
    ghost var filtering := kernel.filtering;
    assert kernel.net.links[config.name] == Link(old(kernel.net.next), 0, Bridge, 0);
    assert filtering == old(kernel.filtering) + {old(kernel.net.next)};
    assert kernel.Reliable() == old(kernel.Reliable());
    ok, order := BridgeUpdate(kernel, info, None, config);
    assert kernel.filtering == filtering;
  }

  method CheckAllManaged(ports: map<string, bool>) returns (allManaged: bool)
    ensures allManaged == AllManaged(ports)
  {
    allManaged := true;
    var todo := ports.Keys;
    while todo != {}
      invariant todo <= ports.Keys
      invariant allManaged <==> forall n :: n in ports && n !in todo ==> ports[n]
    {
      var port :| port in todo;
      todo := todo - {port};
      if !ports[port] {
        allManaged := false;
        break;
      }
    }
  }

  method BridgeUnconfigured(kernel: Kernel, info: ManagedBridgePortsInfo, config: BridgeConfiguration, isManaged: bool)
    returns (ok: bool)
    modifies kernel`net, info
    ensures Plane(kernel.net, info.managedBridgePorts)
            == AfterUnconfigure(kernel.faults, old(Plane(kernel.net, info.managedBridgePorts)), config, isManaged)
    ensures ok
            <==> UnconfigureSucceeds(kernel.faults, old(Plane(kernel.net, info.managedBridgePorts)), config, isManaged)
  {
    ghost var start := Plane(kernel.net, info.managedBridgePorts);
    if config.name !in kernel.net.links {
      return false;
    }
    var br := Handle(config.name, kernel.net.links[config.name].index);
    EgressInterfaceReconcile(kernel, info, br, config.egressInterfaces, []);
    EgressVlanInterfaceReconcile(kernel, info, br, config.egressVlanInterfaces, []);
    PerformConcat(kernel.faults, br, start, EgressPlan(config.egressInterfaces, []),
                  VlanPlan(config.egressVlanInterfaces, []));
    if isManaged {
      if config.name !in info.managedBridgePorts {
        return false;
      }
      var allManaged := CheckAllManaged(info.managedBridgePorts[config.name]);
      if allManaged {
        ok := kernel.LinkDel(br);
        return;
      }
    }
    return true;
  }

  // ----- What is reported -----

  /** Setting up reports success exactly when the bridge was created and set up; only then anything else is done. */
  lemma ConfigureReports(faults: Faults, p: Plane, config: BridgeConfiguration)
    ensures var log, after := p.net.log, AfterConfigure(faults, p, config).net.log;
            ConfigureSucceeds(faults, p.net, config.name)
            <==> log + [Call.LinkAdd(config.name, p.net.next, true), Call.LinkSetUp(config.name, true)] <= after
  {
    var added := p.net.LinkAdd(faults, config.name, Bridge, 0);
    var up := added.LinkSetUp(faults, config.name);
    assert added.Succeeded() ==> added.log[|p.net.log|] == Call.LinkAdd(config.name, p.net.next, true);
    if ConfigureSucceeds(faults, p.net, config.name) {
      PlanGrowsLog(faults, HandleOf(up.links, config.name), Plane(up, p.ports), UpdatePlan(None, config));
      assert up.log == p.net.log + [Call.LinkAdd(config.name, p.net.next, true), Call.LinkSetUp(config.name, true)];
    }
  }

  // ----- When a bridge is deleted -----

  /** A drained table: recorded ports keep their flag or go, and only ports in `named` go. */
  ghost predicate Shrunk(was: PortTable, now: PortTable, bridge: string, named: set<string>)
    requires bridge in was
  {
    && bridge in now
    && now[bridge].Keys <= was[bridge].Keys
    && (forall n :: n in now[bridge] ==> now[bridge][n] == was[bridge][n])
    && (forall n :: n in was[bridge] && n !in named ==> n in now[bridge])
  }

  function Target(a: Action): string {
    match a
    case Release(name) => name
    case Attach(name) => name
    case DropVlan(v) => VlanInterfaceName(v)
    case PutVlan(v) => VlanInterfaceName(v)
  }

  ghost predicate Removes(plan: seq<Action>) {
    forall k :: 0 <= k < |plan| ==> plan[k].Release? || plan[k].DropVlan?
  }

  function Targets(plan: seq<Action>): set<string> {
    set k | 0 <= k < |plan| :: Target(plan[k])
  }

  lemma RemovingActionForgets(faults: Faults, br: Handle, p: Plane, a: Action)
    requires a.Release? || a.DropVlan?
    ensures var ports := Perform(faults, br, p, a).ports;
            || ports == RemovePort(p.ports, br.name, Target(a))
            || (ports == p.ports && PortManaged(p.ports, br.name, Target(a)))
  {
  }

  lemma ForgettingShrinks(was: PortTable, now: PortTable, bridge: string, named: set<string>, port: string)
    requires bridge in was && Shrunk(was, now, bridge, named)
    requires forall n :: n in now[bridge] && n in named ==> now[bridge][n]
    ensures var after := RemovePort(now, bridge, port);
            && Shrunk(was, after, bridge, named + {port})
            && forall n :: n in after[bridge] && n in named + {port} ==> after[bridge][n]
  {
  }

  /** Whatever fails, a removing plan forgets every unmanaged port it names, and touches no other port. */
  lemma {:induction false} RemovingPlanShrinks(faults: Faults, br: Handle, p: Plane, plan: seq<Action>)
    requires br.name in p.ports && Removes(plan)
    ensures var q := PerformAll(faults, br, p, plan);
            && Shrunk(p.ports, q.ports, br.name, Targets(plan))
            && forall n :: n in q.ports[br.name] && n in Targets(plan) ==> q.ports[br.name][n]
  {
    if plan != [] {
      var front, last := plan[..|plan| - 1], plan[|plan| - 1];
      RemovingPlanShrinks(faults, br, p, front);
      assert Targets(plan) == Targets(front) + {Target(last)};
      var q := PerformAll(faults, br, p, front);
      RemovingActionForgets(faults, br, q, last);
      ForgettingShrinks(p.ports, q.ports, br.name, Targets(front), Target(last));
    }
  }

  lemma {:induction false} MissingFromNothing<T>(xs: seq<T>)
    ensures Missing(xs, []) == xs && Missing([], xs) == []
  {
    if xs != [] {
      MissingFromNothing(xs[..|xs| - 1]);
    }
  }

  lemma DrainPlanIs(config: BridgeConfiguration)
    ensures DrainPlan(config) == Releases(config.egressInterfaces) + Drops(config.egressVlanInterfaces)
  {
    MissingFromNothing(config.egressInterfaces);
    MissingFromNothing(config.egressVlanInterfaces);
  }

  lemma TargetsOfBoth(first: seq<Action>, second: seq<Action>)
    ensures Targets(first + second) == Targets(first) + Targets(second)
  {
    var plan := first + second;
    forall k | 0 <= k < |second|
      ensures Target(second[k]) in Targets(plan)
    {
      assert plan[|first| + k] == second[k];
    }
    forall k | 0 <= k < |first|
      ensures Target(first[k]) in Targets(plan)
    {
      assert plan[k] == first[k];
    }
  }

  lemma TargetsOfReleases(es: seq<EgressInterface>)
    ensures Targets(Releases(es)) == EgressNamesOf(es)
  {
    forall e | e in es
      ensures e.name in Targets(Releases(es))
    {
      var i :| 0 <= i < |es| && es[i] == e;
      assert Target(Releases(es)[i]) == e.name;
    }
  }

  lemma TargetsOfDrops(vs: seq<EgressVlanInterface>)
    ensures Targets(Drops(vs)) == VlanNamesOf(vs)
  {
    forall v | v in vs
      ensures VlanInterfaceName(v) in Targets(Drops(vs))
    {
      var i :| 0 <= i < |vs| && vs[i] == v;
      assert Target(Drops(vs)[i]) == VlanInterfaceName(v);
    }
  }

  lemma DrainPlanRemoves(config: BridgeConfiguration)
    ensures Removes(DrainPlan(config)) && Targets(DrainPlan(config)) == EgressNames(config)
  {
    DrainPlanIs(config);
    TargetsOfBoth(Releases(config.egressInterfaces), Drops(config.egressVlanInterfaces));
    TargetsOfReleases(config.egressInterfaces);
    TargetsOfDrops(config.egressVlanInterfaces);
  }

  /**
   The bridge link is put up for deletion exactly when the bridge is managed and every recorded port the
   configuration does not name is managed. No failure in the two egress passes makes a difference.
   */
  lemma DeletionIff(faults: Faults, p: Plane, config: BridgeConfiguration, isManaged: bool)
    requires config.name in p.net.links && config.name in p.ports
    ensures var q := AfterDrain(faults, p, config);
            var after := AfterUnconfigure(faults, p, config, isManaged);
            if && isManaged
               && forall n :: n in p.ports[config.name] && n !in EgressNames(config) ==> p.ports[config.name][n]
            then after == q.(net := q.net.LinkDel(faults, HandleOf(p.net.links, config.name)))
            else after == q
  {
    var br, q := HandleOf(p.net.links, config.name), AfterDrain(faults, p, config);
    DrainPlanRemoves(config);
    RemovingPlanShrinks(faults, br, p, DrainPlan(config));
    var named := EgressNames(config);
    assert AllManaged(q.ports[config.name])
           <==> forall n :: n in p.ports[config.name] && n !in named ==> p.ports[config.name][n];
  }
}
