/**
 Exactly when the history of updates matters: which VLAN interfaces a chain of updates leaves behind, and
 which ports attached by somebody else stay recorded.
 */
module ChainExactness {
  import opened Configuration
  import opened Netlink
  import opened Management
  import opened Reconcile
  import opened Bridges
  import opened Realisation
  import opened History

  // ----- VLAN interfaces along a chain -----

  /** The VLAN names that are live after a chain of updates. */
  function LiveChain(base: Plane, scope: Scope, configs: seq<BridgeConfiguration>): set<string>
    requires configs != []
  {
    if |configs| == 1 then Live(base, scope, VlanNamesOf(configs[0].egressVlanInterfaces))
    else LiveNext(base, scope, LiveChain(base, scope, configs[..|configs| - 1]),
                  configs[|configs| - 2].egressVlanInterfaces, configs[|configs| - 1].egressVlanInterfaces)
  }

  lemma {:induction false} LiveChainInScope(base: Plane, scope: Scope, configs: seq<BridgeConfiguration>)
    requires configs != []
    ensures LiveChain(base, scope, configs) <= scope.vlans.Keys
  {
    if |configs| > 1 {
      LiveChainInScope(base, scope, configs[..|configs| - 1]);
    }
  }

  /** The k-th configuration brings in the name: it starts the chain with it, or an entry that is new has it. */
  ghost predicate BroughtIn(configs: seq<BridgeConfiguration>, k: nat, name: string)
    requires k < |configs|
  {
    name in VlanNamesOf(if k == 0 then configs[0].egressVlanInterfaces
                        else Missing(configs[k].egressVlanInterfaces, configs[k - 1].egressVlanInterfaces))
  }

  /** The update to the k-th configuration drops an entry of that name. */
  ghost predicate DroppedAt(configs: seq<BridgeConfiguration>, k: nat, name: string)
    requires k < |configs|
  {
    k > 0 && name in VlanNamesOf(Missing(configs[k - 1].egressVlanInterfaces, configs[k].egressVlanInterfaces))
  }

  /** The name was brought in at k and no later update drops it. */
  ghost predicate StaysSince(configs: seq<BridgeConfiguration>, k: nat, name: string) {
    && k < |configs| && BroughtIn(configs, k, name)
    && forall j :: k < j < |configs| ==> !DroppedAt(configs, j, name)
  }

  lemma FrontSame(configs: seq<BridgeConfiguration>, k: nat, name: string)
    requires k + 1 < |configs|
    ensures BroughtIn(configs[..|configs| - 1], k, name) <==> BroughtIn(configs, k, name)
    ensures DroppedAt(configs[..|configs| - 1], k, name) <==> DroppedAt(configs, k, name)
  {
  }

  lemma StaysSinceFront(configs: seq<BridgeConfiguration>, k: nat, name: string)
    requires k + 1 < |configs|
    ensures StaysSince(configs, k, name)
            <==> StaysSince(configs[..|configs| - 1], k, name) && !DroppedAt(configs, |configs| - 1, name)
  {
    var front := configs[..|configs| - 1];
    FrontSame(configs, k, name);
    forall j: nat | j < |front|
      ensures DroppedAt(front, j, name) <==> DroppedAt(configs, j, name)
    {
      FrontSame(configs, j, name);
    }
    if StaysSince(front, k, name) && !DroppedAt(configs, |configs| - 1, name) {
      forall j | k < j < |configs|
        ensures !DroppedAt(configs, j, name)
      {
        assert j < |front| ==> !DroppedAt(front, j, name);
      }
    }
    if StaysSince(configs, k, name) {
      forall j | k < j < |front|
        ensures !DroppedAt(front, j, name)
      {
        assert !DroppedAt(configs, j, name);
      }
    }
  }

  ghost predicate Stays(configs: seq<BridgeConfiguration>, name: string) {
    exists k :: StaysSince(configs, k, name)
  }

  lemma StaysFromFront(configs: seq<BridgeConfiguration>, k: nat, name: string)
    requires |configs| > 1 && StaysSince(configs[..|configs| - 1], k, name) && !DroppedAt(configs, |configs| - 1, name)
    ensures Stays(configs, name)
  {
    StaysSinceFront(configs, k, name);
  }

  lemma StaysSplit(configs: seq<BridgeConfiguration>, k: nat, name: string)
    requires |configs| > 1 && StaysSince(configs, k, name)
    ensures var last := |configs| - 1;
            BroughtIn(configs, last, name) || (Stays(configs[..last], name) && !DroppedAt(configs, last, name))
  {
    if k < |configs| - 1 {
      StaysSinceFront(configs, k, name);
      assert StaysSince(configs[..|configs| - 1], k, name);
    }
  }

  lemma StaysIff(configs: seq<BridgeConfiguration>, name: string)
    requires |configs| > 1
    ensures var last := |configs| - 1;
            Stays(configs, name)
            <==> BroughtIn(configs, last, name) || (Stays(configs[..last], name) && !DroppedAt(configs, last, name))
  {
    var last := |configs| - 1;
    if Stays(configs, name) {
      var k: nat :| StaysSince(configs, k, name);
      StaysSplit(configs, k, name);
    } else if BroughtIn(configs, last, name) {
      assert StaysSince(configs, last, name);
    } else if Stays(configs[..last], name) && !DroppedAt(configs, last, name) {
      var k: nat :| StaysSince(configs[..last], k, name);
      StaysFromFront(configs, k, name);
    }
  }

  /**
   Read off the configurations: a name is live at the end when its parent exists and it stays since it was brought in.
   */
  lemma {:induction false} LiveChainIff(base: Plane, scope: Scope, configs: seq<BridgeConfiguration>, name: string)
    requires configs != []
    ensures name in LiveChain(base, scope, configs) <==> name in Live(base, scope, {name}) && Stays(configs, name)
  {
    var last := |configs| - 1;
    if last == 0 {
      assert StaysSince(configs, 0, name) <==> BroughtIn(configs, 0, name);
    } else {
      LiveChainIff(base, scope, configs[..last], name);
      StaysIff(configs, name);
    }
  }

  lemma {:induction false} ChainLeadsTo(faults: Faults, p: Plane, base: Plane, br: Handle, scope: Scope,
                                        configs: seq<BridgeConfiguration>)
    requires forall n :: !faults(n)
    requires configs != [] && Untouched(base, br, scope)
    requires forall c :: c in configs ==> c.name == br.name && InScope(scope, c)
    requires InForce(p, base, br, scope, configs[0].egressInterfaces, configs[0].egressVlanInterfaces)
    ensures LiveChain(base, scope, configs) <= scope.vlans.Keys
    ensures Realised(Chain(faults, p, configs), base, br, scope,
                     Taken(base, EgressNamesOf(configs[|configs| - 1].egressInterfaces)),
                     LiveChain(base, scope, configs))
  {
    LiveChainInScope(base, scope, configs);
    if |configs| > 1 {
      var front := configs[..|configs| - 1];
      ChainLeadsTo(faults, p, base, br, scope, front);
      assert configs[|configs| - 2] in configs && configs[|configs| - 1] in configs;
      UpdateLeadsTo(faults, Chain(faults, p, front), base, br, scope, LiveChain(base, scope, front),
                    Some(configs[|configs| - 2]), configs[|configs| - 1]);
    }
  }

  lemma SimilarIff(p: Plane, q: Plane, base: Plane, br: Handle, scope: Scope, taken: set<string>, live: set<string>,
                   live': set<string>)
    requires Untouched(base, br, scope) && live <= scope.vlans.Keys && live' <= scope.vlans.Keys
    requires Realised(p, base, br, scope, taken, live) && Realised(q, base, br, scope, taken, live')
    ensures Similar(base, p, q) <==> live == live'
  {
    if live == live' {
      RealisedIsSimilar(p, q, base, br, scope, taken, live);
    } else {
      assert p.net.links.Keys == base.net.links.Keys + live && q.net.links.Keys == base.net.links.Keys + live';
      if n :| n in live && n !in live' {
        assert n in p.net.links && n !in q.net.links;
      } else {
        var n :| n in live' && n !in live;
        assert n in q.net.links && n !in p.net.links;
      }
    }
  }

  /** For any chain: it ends as the direct update does exactly when both leave the same VLAN names live. */
  lemma HistoryIndependentIff(faults: Faults, faults': Faults, p: Plane, base: Plane, br: Handle, scope: Scope,
                              configs: seq<BridgeConfiguration>)
    requires forall n :: !faults(n) && !faults'(n)
    requires configs != [] && Untouched(base, br, scope)
    requires forall c :: c in configs ==> c.name == br.name && InScope(scope, c)
    requires InForce(p, base, br, scope, configs[0].egressInterfaces, configs[0].egressVlanInterfaces)
    ensures var first, last := configs[0], configs[|configs| - 1];
            Similar(base, Chain(faults, p, configs), AfterUpdate(faults', p, Some(first), last))
            <==> LiveChain(base, scope, configs)
                 == LiveAfter(base, scope, first.egressVlanInterfaces, last.egressVlanInterfaces)
  {
    var first, last := configs[0], configs[|configs| - 1];
    assert first in configs && last in configs;
    ChainLeadsTo(faults, p, base, br, scope, configs);
    UpdateLeadsTo(faults', p, base, br, scope, Live(base, scope, VlanNamesOf(first.egressVlanInterfaces)), Some(first),
                  last);
    SimilarIff(Chain(faults, p, configs), AfterUpdate(faults', p, Some(first), last), base, br, scope,
               Taken(base, EgressNamesOf(last.egressInterfaces)), LiveChain(base, scope, configs),
               LiveAfter(base, scope, first.egressVlanInterfaces, last.egressVlanInterfaces));
  }

  lemma SameLiveIff(base: Plane, scope: Scope, configs: seq<BridgeConfiguration>, configs': seq<BridgeConfiguration>)
    requires configs != [] && configs' != []
    ensures LiveChain(base, scope, configs) == LiveChain(base, scope, configs')
            <==> forall n :: n in Live(base, scope, {n}) ==> (Stays(configs, n) <==> Stays(configs', n))
  {
    var live, live' := LiveChain(base, scope, configs), LiveChain(base, scope, configs');
    forall n
      ensures n in live <==> n in Live(base, scope, {n}) && Stays(configs, n)
      ensures n in live' <==> n in Live(base, scope, {n}) && Stays(configs', n)
    {
      LiveChainIff(base, scope, configs, n);
      LiveChainIff(base, scope, configs', n);
    }
    if live != live' {
      if n :| n in live && n !in live' {
        assert n in Live(base, scope, {n}) && Stays(configs, n) && !Stays(configs', n);
      } else {
        var n :| n in live' && n !in live;
        assert n in Live(base, scope, {n}) && Stays(configs', n) && !Stays(configs, n);
      }
    }
  }

  lemma DirectIsChain(base: Plane, scope: Scope, first: BridgeConfiguration, last: BridgeConfiguration)
    ensures LiveChain(base, scope, [first, last])
            == LiveAfter(base, scope, first.egressVlanInterfaces, last.egressVlanInterfaces)
  {
    assert [first, last][..1] == [first];
  }

  /**
   The same condition, read off the configurations: no VLAN name is lost on the way that the direct update keeps, nor
   the reverse.
   */
  lemma HistoryIndependentByNames(faults: Faults, faults': Faults, p: Plane, base: Plane, br: Handle, scope: Scope,
                                  configs: seq<BridgeConfiguration>)
    requires forall n :: !faults(n) && !faults'(n)
    requires configs != [] && Untouched(base, br, scope)
    requires forall c :: c in configs ==> c.name == br.name && InScope(scope, c)
    requires InForce(p, base, br, scope, configs[0].egressInterfaces, configs[0].egressVlanInterfaces)
    ensures var first, last := configs[0], configs[|configs| - 1];
            Similar(base, Chain(faults, p, configs), AfterUpdate(faults', p, Some(first), last))
            <==> forall n :: n in Live(base, scope, {n}) ==> (Stays(configs, n) <==> Stays([first, last], n))
  {
    HistoryIndependentIff(faults, faults', p, base, br, scope, configs);
    DirectIsChain(base, scope, configs[0], configs[|configs| - 1]);
    SameLiveIff(base, scope, configs, [configs[0], configs[|configs| - 1]]);
  }

  lemma {:induction false} SteadyLive(base: Plane, br: Handle, scope: Scope, configs: seq<BridgeConfiguration>)
    requires configs != [] && Steady(configs, br, base.net.links.Keys)
    requires forall c :: c in configs ==> InScope(scope, c)
    ensures LiveChain(base, scope, configs)
            == Live(base, scope, VlanNamesOf(configs[|configs| - 1].egressVlanInterfaces))
  {
    if |configs| > 1 {
      var was, now := configs[|configs| - 2], configs[|configs| - 1];
      assert was in configs && now in configs;
      SteadyLive(base, br, scope, configs[..|configs| - 1]);
      LiveAfterIff(base, scope, was.egressVlanInterfaces, now.egressVlanInterfaces);
    }
  }

  /**
   In particular, if every update keeps the names of the VLAN entries that stay, the state after a chain is that after
   the direct update. The scope holds the names the configurations use; `ScopeOf` is one that does.
   */
  lemma HistoryIndependence(faults: Faults, faults': Faults, p: Plane, base: Plane, br: Handle, scope: Scope,
                            configs: seq<BridgeConfiguration>)
    requires forall n :: !faults(n) && !faults'(n)
    requires configs != [] && Steady(configs, br, base.net.links.Keys)
    requires KeepsNames(configs[0].egressVlanInterfaces, configs[|configs| - 1].egressVlanInterfaces,
                        base.net.links.Keys)
    requires Untouched(base, br, scope) && forall c :: c in configs ==> InScope(scope, c)
    requires InForce(p, base, br, scope, configs[0].egressInterfaces, configs[0].egressVlanInterfaces)
    ensures Similar(base, Chain(faults, p, configs), AfterUpdate(faults', p, Some(configs[0]), configs[|configs| - 1]))
  {
    var first, last := configs[0], configs[|configs| - 1];
    assert first in configs && last in configs;
    SteadyLive(base, br, scope, configs);
    LiveAfterIff(base, scope, first.egressVlanInterfaces, last.egressVlanInterfaces);
    HistoryIndependentIff(faults, faults', p, base, br, scope, configs);
  }

  /** An update leaves no VLAN name that the new list does not want, if the old one wanted all there were. */
  lemma LiveNextIsWanted(base: Plane, scope: Scope, live: set<string>,
                         oldList: seq<EgressVlanInterface>, newList: seq<EgressVlanInterface>)
    requires live <= VlanNamesOf(oldList)
    ensures LiveNext(base, scope, live, oldList, newList) <= VlanNamesOf(newList)
  {
    MissingVlanNames(oldList, newList);
    MissingVlanNames(newList, oldList);
    forall n | n in live && n !in VlanNamesOf(Missing(oldList, newList))
      ensures n in VlanNamesOf(newList)
    {
      var v :| v in oldList && VlanInterfaceName(v) == n;
    }
  }

  /** A chain leaves no VLAN name that its last configuration does not want. */
  lemma {:induction false} NothingLeftOver(base: Plane, scope: Scope, configs: seq<BridgeConfiguration>)
    requires configs != []
    ensures LiveChain(base, scope, configs) <= VlanNamesOf(configs[|configs| - 1].egressVlanInterfaces)
  {
    if |configs| > 1 {
      var front := configs[..|configs| - 1];
      NothingLeftOver(base, scope, front);
      LiveNextIsWanted(base, scope, LiveChain(base, scope, front),
                       configs[|configs| - 2].egressVlanInterfaces, configs[|configs| - 1].egressVlanInterfaces);
    }
  }

  /** The name of an entry that stays is gone after the update if an entry of that name goes and none comes. */
  lemma SharedNameIsLost(faults: Faults, p: Plane, base: Plane, br: Handle, scope: Scope,
                         oldConfig: BridgeConfiguration, config: BridgeConfiguration, gone: EgressVlanInterface)
    requires forall n :: !faults(n)
    requires Untouched(base, br, scope) && config.name == br.name && InScope(scope, oldConfig) && InScope(scope, config)
    requires InForce(p, base, br, scope, oldConfig.egressInterfaces, oldConfig.egressVlanInterfaces)
    requires gone in oldConfig.egressVlanInterfaces && gone !in config.egressVlanInterfaces
    requires VlanInterfaceName(gone)
             !in VlanNamesOf(Missing(config.egressVlanInterfaces, oldConfig.egressVlanInterfaces))
    ensures VlanInterfaceName(gone) !in AfterUpdate(faults, p, Some(oldConfig), config).net.links
  {
    var name := VlanInterfaceName(gone);
    UpdateLeadsTo(faults, p, base, br, scope, Live(base, scope, VlanNamesOf(oldConfig.egressVlanInterfaces)),
                  Some(oldConfig), config);
    MissingVlanNames(oldConfig.egressVlanInterfaces, config.egressVlanInterfaces);
    assert name in VlanNamesOf(Missing(oldConfig.egressVlanInterfaces, config.egressVlanInterfaces));
    assert name in scope.vlans;
  }

  /**
   Two spellings of the default protocol name the same link: dropping one entry deletes the link of the other, which
   stays wanted.
   */
  lemma ProtocolSpellingsClash(faults: Faults, p: Plane, base: Plane, br: Handle, scope: Scope,
                               oldConfig: BridgeConfiguration, config: BridgeConfiguration, parent: string, id: int)
    requires forall n :: !faults(n)
    requires Untouched(base, br, scope) && config.name == br.name && InScope(scope, oldConfig) && InScope(scope, config)
    requires InForce(p, base, br, scope, oldConfig.egressInterfaces, oldConfig.egressVlanInterfaces)
    requires parent in base.net.links
    requires oldConfig.egressVlanInterfaces
             == [EgressVlanInterface(parent, "", id), EgressVlanInterface(parent, "802.1q", id)]
    requires config.egressVlanInterfaces == [EgressVlanInterface(parent, "802.1q", id)]
    ensures var name := VlanInterfaceName(EgressVlanInterface(parent, "802.1q", id));
            && name in VlanNamesOf(config.egressVlanInterfaces)
            && name in p.net.links
            && name !in AfterUpdate(faults, p, Some(oldConfig), config).net.links
  {
    var implicit, explicit := EgressVlanInterface(parent, "", id), EgressVlanInterface(parent, "802.1q", id);
    var both, one := oldConfig.egressVlanInterfaces, config.egressVlanInterfaces;
    var name := VlanInterfaceName(explicit);
    assert implicit.protocol != explicit.protocol;
    SameNameIff(implicit, explicit);
    assert both[0] == implicit && both[1] == explicit && one[0] == explicit;
    assert name in VlanNamesOf(one) && name in VlanNamesOf(both);
    assert name in scope.vlans && scope.vlans[name] == Wanted(parent, VlanKind(explicit));
    assert name in Live(base, scope, VlanNamesOf(both));
    MissingVlanNames(one, both);
    SharedNameIsLost(faults, p, base, br, scope, oldConfig, config, implicit);
  }

  // ----- Ports attached by somebody else -----

  /** Recorded, but not attached by the daemon. */
  predicate Foreign(p: Plane, bridge: string, port: string) {
    PortRecorded(p.ports, bridge, port) && !PortManaged(p.ports, bridge, port)
  }

  predicate UsesVlan(a: Action, name: string) {
    (a.DropVlan? || a.PutVlan?) && VlanInterfaceName(a.vlan) == name
  }

  /** The plan does not use the name as that of a VLAN interface. */
  ghost predicate NoVlan(plan: seq<Action>, name: string) {
    forall a :: a in plan ==> !UsesVlan(a, name)
  }

  lemma ForeignAfterAction(faults: Faults, br: Handle, p: Plane, a: Action, port: string)
    requires br.index != 0 && !UsesVlan(a, port)
    ensures Foreign(Perform(faults, br, p, a), br.name, port) <==> Foreign(p, br.name, port) && a != Release(port)
  {
  }

  lemma {:induction false} ForeignAfterPlan(faults: Faults, br: Handle, p: Plane, plan: seq<Action>, port: string)
    requires br.index != 0 && NoVlan(plan, port)
    ensures Foreign(PerformAll(faults, br, p, plan), br.name, port)
            <==> Foreign(p, br.name, port) && Release(port) !in plan
  {
    if plan != [] {
      var front, last := plan[..|plan| - 1], plan[|plan| - 1];
      assert plan == front + [last];
      ForeignAfterPlan(faults, br, p, front, port);
      ForeignAfterAction(faults, br, PerformAll(faults, br, p, front), last, port);
    }
  }

  lemma ReleasedByUpdateIff(oldConfig: Option<BridgeConfiguration>, config: BridgeConfiguration, port: string)
    ensures Release(port) in UpdatePlan(oldConfig, config)
            <==> port in EgressNamesOf(EgressOf(oldConfig)) && port !in EgressNamesOf(config.egressInterfaces)
  {
    var toRemove := Missing(EgressOf(oldConfig), config.egressInterfaces);
    MissingNames(EgressOf(oldConfig), config.egressInterfaces);
    InPlanIff(toRemove, port);
    var attaches := Attaches(Missing(config.egressInterfaces, EgressOf(oldConfig)));
    var vlans := VlanPlan(VlansOf(oldConfig), config.egressVlanInterfaces);
    assert Release(port) !in attaches && Release(port) !in vlans;
    assert UpdatePlan(oldConfig, config) == Releases(toRemove) + attaches + vlans;
  }

  lemma VlanActionsUse(vs: seq<EgressVlanInterface>, name: string)
    requires name !in VlanNamesOf(vs)
    ensures NoVlan(Drops(vs), name) && NoVlan(Puts(vs), name)
  {
    forall a | a in Drops(vs) || a in Puts(vs)
      ensures !UsesVlan(a, name)
    {
      assert a.vlan in vs;
      assert VlanInterfaceName(a.vlan) in VlanNamesOf(vs);
    }
  }

  lemma UpdateUsesNoVlan(oldConfig: Option<BridgeConfiguration>, config: BridgeConfiguration, name: string)
    requires name !in VlanNamesOf(VlansOf(oldConfig)) && name !in VlanNamesOf(config.egressVlanInterfaces)
    ensures NoVlan(UpdatePlan(oldConfig, config), name)
  {
    var vs, vs' := VlansOf(oldConfig), config.egressVlanInterfaces;
    MissingVlanNames(vs, vs');
    MissingVlanNames(vs', vs);
    VlanActionsUse(Missing(vs, vs'), name);
    VlanActionsUse(Missing(vs', vs), name);
    var egress := EgressPlan(EgressOf(oldConfig), config.egressInterfaces);
    assert NoVlan(egress, name);
    assert UpdatePlan(oldConfig, config) == egress + (Drops(Missing(vs, vs')) + Puts(Missing(vs', vs)));
  }

  /** Does this update drop the port's name from the egress interfaces? */
  predicate DropsPort(oldConfig: BridgeConfiguration, config: BridgeConfiguration, port: string) {
    port in EgressNamesOf(oldConfig.egressInterfaces) && port !in EgressNamesOf(config.egressInterfaces)
  }

  /**
   Whatever fails, a port somebody else attached stays recorded through an update
   exactly unless the update drops its name.
   */
  lemma ForeignAfterUpdateIff(faults: Faults, p: Plane, oldConfig: BridgeConfiguration, config: BridgeConfiguration,
                              port: string)
    requires config.name in p.net.links && p.net.links[config.name].index != 0
    requires port !in VlanNamesOf(oldConfig.egressVlanInterfaces) && port !in VlanNamesOf(config.egressVlanInterfaces)
    ensures Foreign(AfterUpdate(faults, p, Some(oldConfig), config), config.name, port)
            <==> Foreign(p, config.name, port) && !DropsPort(oldConfig, config, port)
  {
    UpdateUsesNoVlan(Some(oldConfig), config, port);
    ReleasedByUpdateIff(Some(oldConfig), config, port);
    ForeignAfterPlan(faults, HandleOf(p.net.links, config.name), p, UpdatePlan(Some(oldConfig), config), port);
  }

  lemma ActionLeavesLink(faults: Faults, br: Handle, p: Plane, a: Action, h: Handle)
    requires Present(p.net.links, h) && !UsesVlan(a, h.name)
    ensures Present(Perform(faults, br, p, a).net.links, h)
  {
  }

  lemma {:induction false} PlanLeavesLink(faults: Faults, br: Handle, p: Plane, plan: seq<Action>, h: Handle)
    requires Present(p.net.links, h) && NoVlan(plan, h.name)
    ensures Present(PerformAll(faults, br, p, plan).net.links, h)
  {
    if plan != [] {
      var front := plan[..|plan| - 1];
      PlanLeavesLink(faults, br, p, front, h);
      ActionLeavesLink(faults, br, PerformAll(faults, br, p, front), plan[|plan| - 1], h);
    }
  }

  lemma {:induction false} ChainLeavesBridge(faults: Faults, p: Plane, h: Handle, configs: seq<BridgeConfiguration>)
    requires Present(p.net.links, h)
    requires forall c :: c in configs ==> c.name == h.name && h.name !in VlanNamesOf(c.egressVlanInterfaces)
    ensures Present(Chain(faults, p, configs).net.links, h)
  {
    if |configs| >= 2 {
      var front, was, now := configs[..|configs| - 1], configs[|configs| - 2], configs[|configs| - 1];
      assert was in configs && now in configs;
      ChainLeavesBridge(faults, p, h, front);
      UpdateUsesNoVlan(Some(was), now, h.name);
      PlanLeavesLink(faults, h, Chain(faults, p, front), UpdatePlan(Some(was), now), h);
    }
  }

  /** Some update of the chain drops the port's name. */
  ghost predicate DroppedInChain(configs: seq<BridgeConfiguration>, port: string) {
    exists i :: 0 < i < |configs| && DropsPort(configs[i - 1], configs[i], port)
  }

  lemma DroppedInChainIff(configs: seq<BridgeConfiguration>, port: string)
    requires |configs| >= 2
    ensures DroppedInChain(configs, port)
            <==> || DroppedInChain(configs[..|configs| - 1], port)
                 || DropsPort(configs[|configs| - 2], configs[|configs| - 1], port)
  {
    var front, last := configs[..|configs| - 1], |configs| - 1;
    if i :| 0 < i < |configs| && DropsPort(configs[i - 1], configs[i], port) && i != last {
      assert DropsPort(front[i - 1], front[i], port);
    }
    if i :| 0 < i < |front| && DropsPort(front[i - 1], front[i], port) {
      assert DropsPort(configs[i - 1], configs[i], port);
    }
  }

  /**
   Whatever fails, such a port stays recorded through a chain of updates exactly unless one of them drops its name.
   */
  lemma {:induction false} ForeignAfterChainIff(faults: Faults, p: Plane, bridge: string,
                                                configs: seq<BridgeConfiguration>, port: string)
    requires bridge in p.net.links && p.net.links[bridge].index != 0
    requires forall c :: c in configs ==> c.name == bridge && port !in VlanNamesOf(c.egressVlanInterfaces)
                                          && bridge !in VlanNamesOf(c.egressVlanInterfaces)
    ensures Foreign(Chain(faults, p, configs), bridge, port)
            <==> Foreign(p, bridge, port) && !DroppedInChain(configs, port)
  {
    if |configs| >= 2 {
      var front, was, now := configs[..|configs| - 1], configs[|configs| - 2], configs[|configs| - 1];
      assert was in configs && now in configs;
      ForeignAfterChainIff(faults, p, bridge, front, port);
      ChainLeavesBridge(faults, p, HandleOf(p.net.links, bridge), front);
      ForeignAfterUpdateIff(faults, Chain(faults, p, front), was, now, port);
      DroppedInChainIff(configs, port);
    }
  }

  /**
   For example, a name that is taken up and dropped again: the chain forgets the port, while the direct update,
   which never names it, does not. This is why a base state must not record names of the chain.
   */
  lemma ForeignPortForgotten(faults: Faults, p: Plane, config: BridgeConfiguration, naming: BridgeConfiguration,
                             port: string)
    requires naming.name == config.name && config.name in p.net.links && p.net.links[config.name].index != 0
    requires forall c :: c in [config, naming] ==>
               port !in VlanNamesOf(c.egressVlanInterfaces) && c.name !in VlanNamesOf(c.egressVlanInterfaces)
    requires port !in EgressNamesOf(config.egressInterfaces) && port in EgressNamesOf(naming.egressInterfaces)
    requires Foreign(p, config.name, port)
    ensures !Foreign(Chain(faults, p, [config, naming, config]), config.name, port)
    ensures Foreign(AfterUpdate(faults, p, Some(config), config), config.name, port)
  {
    var configs := [config, naming, config];
    assert [config, naming][0] == config && [config, naming][1] == naming;
    ForeignAfterChainIff(faults, p, config.name, configs, port);
    assert DropsPort(configs[1], configs[2], port);
    ForeignAfterUpdateIff(faults, p, config, config, port);
  }
}
