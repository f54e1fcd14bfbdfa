/** Adding a configuration, updating it and deleting it again. */
module RoundTrip {
  import opened Configuration
  import opened Netlink
  import opened Management
  import opened Reconcile
  import opened Bridges
  import opened Realisation
  import opened History
  import opened ChainExactness
  import opened Server

  /** The bridge as Add finds it just after creating and registering it. */
  function Fresh(faults: Faults, w: World, config: BridgeConfiguration): Plane {
    Plane(w.plane.net.LinkAdd(faults, config.name, Bridge, 0).LinkSetUp(faults, config.name),
          w.plane.ports[config.name := map[]])
  }

  /** The node knows nothing of a bridge, nor of the names configurations in the scope use for it. */
  ghost predicate NothingKnown(w: World, scope: Scope, bridge: string) {
    && bridge !in w.bridges && bridge !in w.plane.ports && bridge !in w.plane.net.links
    && 0 < w.plane.net.next
    && (forall n :: n in w.plane.net.links ==> w.plane.net.links[n].master < w.plane.net.next)
    && (forall n :: n in scope.vlans ==> n !in w.plane.net.links && n != bridge && n !in scope.egress)
    && (forall n :: n in scope.vlans ==> scope.vlans[n].parent !in scope.vlans)
  }

  lemma FreshIsUntouched(faults: Faults, w: World, scope: Scope, config: BridgeConfiguration)
    requires forall n :: !faults(n)
    requires NothingKnown(w, scope, config.name)
    ensures Untouched(Fresh(faults, w, config), Handle(config.name, w.plane.net.next), scope)
  {
  }

  lemma AddUpdatesFresh(faults: Faults, matches: Matches, w: World, config: BridgeConfiguration)
    requires forall n :: !faults(n)
    requires matches(config.nodeSelector)
    requires config.name !in w.bridges && config.name !in w.plane.ports && config.name !in w.plane.net.links
    ensures OnAdd(faults, matches, w, config)
            == World(AfterUpdate(faults, Fresh(faults, w, config), None, config), w.bridges[config.name := true])
  {
  }

  /** Add puts the configuration in force on a fresh bridge. */
  lemma AddInForce(faults: Faults, matches: Matches, w: World, scope: Scope, config: BridgeConfiguration)
    requires forall n :: !faults(n)
    requires matches(config.nodeSelector) && InScope(scope, config) && NothingKnown(w, scope, config.name)
    ensures var base, br := Fresh(faults, w, config), Handle(config.name, w.plane.net.next);
            var after := OnAdd(faults, matches, w, config);
            && Untouched(base, br, scope)
            && InForce(after.plane, base, br, scope, config.egressInterfaces, config.egressVlanInterfaces)
            && after.bridges == w.bridges[config.name := true]
  {
    var base, br := Fresh(faults, w, config), Handle(config.name, w.plane.net.next);
    FreshIsUntouched(faults, w, scope, config);
    BaseIsRealised(base, br, scope);
    assert Taken(base, EgressNamesOf([])) == {} && Live(base, scope, VlanNamesOf([])) == {};
    UpdateInForceIff(faults, base, base, br, scope, None, config);
    AddUpdatesFresh(faults, matches, w, config);
  }

  /**
   For any chain of updates: it is as good as adding the last configuration exactly when no wanted VLAN name is lost on
   the way.
   */
  lemma UpdatesAfterAddIff(faults: Faults, matches: Matches, w: World, scope: Scope, configs: seq<BridgeConfiguration>)
    requires forall n :: !faults(n)
    requires configs != [] && forall c :: c in configs ==> matches(c.nodeSelector) && InScope(scope, c)
    requires forall c :: c in configs ==> c.name == configs[0].name
    requires NothingKnown(w, scope, configs[0].name)
    ensures var base, last := Fresh(faults, w, configs[0]), configs[|configs| - 1];
            Similar(base, Chain(faults, OnAdd(faults, matches, w, configs[0]).plane, configs),
                    OnAdd(faults, matches, w, last).plane)
            <==> forall n :: n in Live(base, scope, VlanNamesOf(last.egressVlanInterfaces)) ==> Stays(configs, n)
  {
    var base, br := Fresh(faults, w, configs[0]), Handle(configs[0].name, w.plane.net.next);
    var first, last := configs[0], configs[|configs| - 1];
    assert first in configs && last in configs && Fresh(faults, w, last) == base;
    AddInForce(faults, matches, w, scope, first);
    AddInForce(faults, matches, w, scope, last);
    ChainLeadsTo(faults, OnAdd(faults, matches, w, first).plane, base, br, scope, configs);
    var live, goal := LiveChain(base, scope, configs), Live(base, scope, VlanNamesOf(last.egressVlanInterfaces));
    SimilarIff(Chain(faults, OnAdd(faults, matches, w, first).plane, configs),
               OnAdd(faults, matches, w, last).plane, base, br, scope,
               Taken(base, EgressNamesOf(last.egressInterfaces)), live, goal);
    LiveIsGoalIff(base, scope, configs);
  }

  lemma LiveIsGoalIff(base: Plane, scope: Scope, configs: seq<BridgeConfiguration>)
    requires configs != []
    ensures var goal := Live(base, scope, VlanNamesOf(configs[|configs| - 1].egressVlanInterfaces));
            LiveChain(base, scope, configs) == goal <==> forall n :: n in goal ==> Stays(configs, n)
  {
    var live := LiveChain(base, scope, configs);
    var goal := Live(base, scope, VlanNamesOf(configs[|configs| - 1].egressVlanInterfaces));
    NothingLeftOver(base, scope, configs);
    forall n
      ensures n in live <==> n in Live(base, scope, {n}) && Stays(configs, n)
    {
      LiveChainIff(base, scope, configs, n);
    }
    assert forall n :: n in goal ==> n in Live(base, scope, {n});
    assert live <= goal;
  }

  /**
   In particular, adding a configuration and updating it through others that keep names is
   as good as adding the last one.
   */
  lemma UpdatesAfterAdd(faults: Faults, matches: Matches, w: World, scope: Scope, configs: seq<BridgeConfiguration>)
    requires forall n :: !faults(n)
    requires configs != [] && forall c :: c in configs ==> matches(c.nodeSelector) && InScope(scope, c)
    requires NothingKnown(w, scope, configs[0].name)
    requires Steady(configs, Handle(configs[0].name, w.plane.net.next), w.plane.net.links.Keys + {configs[0].name})
    ensures var first, last := OnAdd(faults, matches, w, configs[0]), OnAdd(faults, matches, w, configs[|configs| - 1]);
            && first.bridges == last.bridges
            && Similar(Fresh(faults, w, configs[0]), Chain(faults, first.plane, configs), last.plane)
  {
    var base, br := Fresh(faults, w, configs[0]), Handle(configs[0].name, w.plane.net.next);
    var first, last := configs[0], configs[|configs| - 1];
    assert first in configs && last in configs;
    assert base.net.links.Keys == w.plane.net.links.Keys + {first.name};
    AddInForce(faults, matches, w, scope, first);
    AddInForce(faults, matches, w, scope, last);
    SteadyLive(base, br, scope, configs);
    LiveIsGoalIff(base, scope, configs);
    UpdatesAfterAddIff(faults, matches, w, scope, configs);
  }

  /** Draining clears the bridge also when some wanted VLAN interfaces were lost before. */
  lemma DrainLeavesBase(faults: Faults, p: Plane, base: Plane, br: Handle, scope: Scope, live: set<string>,
                        config: BridgeConfiguration)
    requires forall n :: !faults(n)
    requires Untouched(base, br, scope) && InScope(scope, config) && config.name == br.name
    requires live <= scope.vlans.Keys && live <= VlanNamesOf(config.egressVlanInterfaces)
    requires Realised(p, base, br, scope, Taken(base, EgressNamesOf(config.egressInterfaces)), live)
    ensures config.name in p.net.links && HandleOf(p.net.links, config.name) == br
    ensures var q := AfterDrain(faults, p, config);
            q.net.links == base.net.links && q.ports == base.ports
  {
    var empty := config.(egressInterfaces := [], egressVlanInterfaces := []);
    assert p.net.links[br.name].index == br.index;
    UpdateLeadsTo(faults, p, base, br, scope, live, Some(config), empty);
    MissingFromNothing(config.egressVlanInterfaces);
    assert Taken(base, EgressNamesOf([])) == {};
    assert LiveNext(base, scope, live, config.egressVlanInterfaces, []) == {};
    assert AfterUpdate(faults, p, Some(config), empty) == AfterDrain(faults, p, config);
    NothingTakenIsBase(AfterDrain(faults, p, config), base, br, scope);
  }

  lemma DeletingFreshBridge(faults: Faults, w: World, scope: Scope, config: BridgeConfiguration, q: Plane)
    requires forall n :: !faults(n)
    requires NothingKnown(w, scope, config.name)
    requires q.net.links == Fresh(faults, w, config).net.links
    ensures q.net.LinkDel(faults, Handle(config.name, w.plane.net.next)).links == w.plane.net.links
  {
    assert q.net.links == w.plane.net.links[config.name := Link(w.plane.net.next, 0, Bridge, 0)];
  }

  lemma DeletingRestores(faults: Faults, matches: Matches, w: World, added: World, config: BridgeConfiguration,
                         q: Plane, ports: PortTable)
    requires matches(config.nodeSelector)
    requires config.name !in w.bridges && config.name !in ports
    requires added.bridges == w.bridges[config.name := true]
    requires config.name in added.plane.net.links && q == AfterDrain(faults, added.plane, config)
    requires q.ports == ports[config.name := map[]]
    requires q.net.LinkDel(faults, HandleOf(added.plane.net.links, config.name)).links == w.plane.net.links
    ensures var after := OnDelete(faults, matches, added, config);
            after.plane.net.links == w.plane.net.links && after.plane.ports == ports && after.bridges == w.bridges
  {
    assert q.ports - {config.name} == ports;
    assert added.bridges - {config.name} == w.bridges;
    assert BridgeFlag(added.bridges, config.name);
    assert AllManaged(q.ports[config.name]);
  }

  /** With every call succeeding, Add then Delete restores every link, every master and both tables. */
  lemma AddThenDelete(faults: Faults, matches: Matches, w: World, config: BridgeConfiguration)
    requires forall n :: !faults(n)
    requires matches(config.nodeSelector) && NothingKnown(w, ScopeOf([config]), config.name)
    ensures var after := OnDelete(faults, matches, OnAdd(faults, matches, w, config), config);
            && after.plane.net.links == w.plane.net.links
            && after.plane.ports == w.plane.ports
            && after.bridges == w.bridges
  {
    var base, br, scope := Fresh(faults, w, config), Handle(config.name, w.plane.net.next), ScopeOf([config]);
    var added := OnAdd(faults, matches, w, config);
    AllInScope([config], config);
    AddInForce(faults, matches, w, scope, config);
    DrainLeavesBase(faults, added.plane, base, br, scope, Live(base, scope, VlanNamesOf(config.egressVlanInterfaces)),
                    config);
    var q := AfterDrain(faults, added.plane, config);
    DeletingFreshBridge(faults, w, scope, config, q);
    DeletingRestores(faults, matches, w, added, config, q, w.plane.ports);
  }

  /** The update handler called along a chain of configurations. */
  function AfterUpdates(faults: Faults, w: World, configs: seq<BridgeConfiguration>): World {
    if |configs| < 2 then w
    else
      var front := configs[..|configs| - 1];
      OnUpdate(faults, AfterUpdates(faults, w, front), configs[|configs| - 2], configs[|configs| - 1])
  }

  lemma {:induction false} ChainOfHandlers(faults: Faults, w: World, configs: seq<BridgeConfiguration>)
    ensures AfterUpdates(faults, w, configs) == w.(plane := Chain(faults, w.plane, configs))
  {
    if |configs| >= 2 {
      ChainOfHandlers(faults, w, configs[..|configs| - 1]);
    }
  }

  /** Add, then any chain of updates at all, then Delete of the last configuration restores the same. */
  lemma AddUpdateDelete(faults: Faults, matches: Matches, w: World, scope: Scope, configs: seq<BridgeConfiguration>)
    requires forall n :: !faults(n)
    requires configs != [] && forall c :: c in configs ==> matches(c.nodeSelector) && InScope(scope, c)
    requires forall c :: c in configs ==> c.name == configs[0].name
    requires NothingKnown(w, scope, configs[0].name)
    ensures var added := OnAdd(faults, matches, w, configs[0]);
            var after := OnDelete(faults, matches, AfterUpdates(faults, added, configs), configs[|configs| - 1]);
            && after.plane.net.links == w.plane.net.links
            && after.plane.ports == w.plane.ports
            && after.bridges == w.bridges
  {
    var base, br := Fresh(faults, w, configs[0]), Handle(configs[0].name, w.plane.net.next);
    var first, last := configs[0], configs[|configs| - 1];
    assert first in configs && last in configs;
    var added := OnAdd(faults, matches, w, first);
    AddInForce(faults, matches, w, scope, first);
    ChainLeadsTo(faults, added.plane, base, br, scope, configs);
    NothingLeftOver(base, scope, configs);
    ChainOfHandlers(faults, added, configs);
    var updated := AfterUpdates(faults, added, configs);
    DrainLeavesBase(faults, updated.plane, base, br, scope, LiveChain(base, scope, configs), last);
    var q := AfterDrain(faults, updated.plane, last);
    DeletingFreshBridge(faults, w, scope, last, q);
    DeletingRestores(faults, matches, w, updated, last, q, w.plane.ports);
  }
}
