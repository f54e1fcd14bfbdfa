/** Updates with every call succeeding: where they lead, and that the way there leaves no trace. */
module History {
  import opened Configuration
  import opened Netlink
  import opened Reconcile
  import opened Bridges
  import opened Realisation

  /** A generated name says what it stands for. */
  function WantedFor(name: string): Wanted {
    match ParseVlanInterfaceName(name)
    case Some(VlanName(parent, serviceTag, id)) => Wanted(parent, Vlan(id, serviceTag))
    case None => Wanted("", Device)
  }

  function ScopeOf(configs: seq<BridgeConfiguration>): Scope {
    Scope(set c, e | c in configs && e in c.egressInterfaces :: e.name,
          map n | n in (set c, v | c in configs && v in c.egressVlanInterfaces :: VlanInterfaceName(v)) :: WantedFor(n))
  }

  ghost predicate InScope(scope: Scope, config: BridgeConfiguration) {
    && (forall e :: e in config.egressInterfaces ==> e.name in scope.egress)
    && VlansInScope(scope, config.egressVlanInterfaces)
  }

  lemma AllInScope(configs: seq<BridgeConfiguration>, config: BridgeConfiguration)
    requires config in configs
    ensures InScope(ScopeOf(configs), config)
  {
    forall v | v in config.egressVlanInterfaces
      ensures WantedFor(VlanInterfaceName(v)) == Wanted(v.name, VlanKind(v))
    {
      ParseGeneratedName(v);
    }
  }

  lemma LiveAdds(base: Plane, scope: Scope, a: set<string>, b: set<string>)
    ensures Live(base, scope, a + b) == Live(base, scope, a) + Live(base, scope, b)
  {
  }

  // ----- The four loops -----

  lemma ReleaseStepRealises(faults: Faults, p: Plane, base: Plane, br: Handle, scope: Scope,
                            egress: set<string>, live: set<string>, name: string)
    requires forall n :: !faults(n)
    requires Untouched(base, br, scope) && live <= scope.vlans.Keys && name in scope.egress
    requires Realised(p, base, br, scope, Taken(base, egress), live)
    ensures Realised(Perform(faults, br, p, Release(name)), base, br, scope, Taken(base, egress - {name}), live)
  {
    ReleaseRealises(faults, p, base, br, scope, Taken(base, egress), live, name);
    assert Taken(base, egress) - {name} == Taken(base, egress - {name});
  }

  lemma AttachStepRealises(faults: Faults, p: Plane, base: Plane, br: Handle, scope: Scope,
                           egress: set<string>, live: set<string>, name: string)
    requires forall n :: !faults(n)
    requires Untouched(base, br, scope) && live <= scope.vlans.Keys && name in scope.egress
    requires Realised(p, base, br, scope, Taken(base, egress), live)
    ensures Realised(Perform(faults, br, p, Attach(name)), base, br, scope, Taken(base, egress + {name}), live)
  {
    AttachRealises(faults, p, base, br, scope, Taken(base, egress), live, name);
    assert Taken(base, egress + {name})
           == if Free(base, name) then Taken(base, egress) + {name} else Taken(base, egress);
  }

  lemma {:induction false} ReleasesRealise(faults: Faults, p: Plane, base: Plane, br: Handle, scope: Scope,
                                           egress: set<string>, live: set<string>, es: seq<EgressInterface>)
    requires forall n :: !faults(n)
    requires Untouched(base, br, scope) && live <= scope.vlans.Keys && EgressNamesOf(es) <= scope.egress
    requires Realised(p, base, br, scope, Taken(base, egress), live)
    ensures Realised(PerformAll(faults, br, p, Releases(es)), base, br, scope,
                     Taken(base, egress - EgressNamesOf(es)), live)
  {
    if es == [] {
      assert egress - EgressNamesOf(es) == egress;
    } else {
      var front, last := es[..|es| - 1], es[|es| - 1];
      NamesSplit(es, []);
      PlansSplit(es, []);
      ReleasesRealise(faults, p, base, br, scope, egress, live, front);
      ReleaseStepRealises(faults, PerformAll(faults, br, p, Releases(front)), base, br, scope,
                          egress - EgressNamesOf(front), live, last.name);
      assert egress - EgressNamesOf(es) == egress - EgressNamesOf(front) - {last.name};
    }
  }

  lemma {:induction false} AttachesRealise(faults: Faults, p: Plane, base: Plane, br: Handle, scope: Scope,
                                           egress: set<string>, live: set<string>, es: seq<EgressInterface>)
    requires forall n :: !faults(n)
    requires Untouched(base, br, scope) && live <= scope.vlans.Keys && EgressNamesOf(es) <= scope.egress
    requires Realised(p, base, br, scope, Taken(base, egress), live)
    ensures Realised(PerformAll(faults, br, p, Attaches(es)), base, br, scope,
                     Taken(base, egress + EgressNamesOf(es)), live)
  {
    if es == [] {
      assert egress + EgressNamesOf(es) == egress;
    } else {
      var front, last := es[..|es| - 1], es[|es| - 1];
      NamesSplit(es, []);
      PlansSplit(es, []);
      AttachesRealise(faults, p, base, br, scope, egress, live, front);
      AttachStepRealises(faults, PerformAll(faults, br, p, Attaches(front)), base, br, scope,
                         egress + EgressNamesOf(front), live, last.name);
      assert egress + EgressNamesOf(es) == egress + EgressNamesOf(front) + {last.name};
    }
  }

  lemma {:induction false} DropsRealise(faults: Faults, p: Plane, base: Plane, br: Handle, scope: Scope,
                                        taken: set<string>, live: set<string>, vs: seq<EgressVlanInterface>)
    requires forall n :: !faults(n)
    requires Untouched(base, br, scope) && live <= scope.vlans.Keys
    requires taken !! scope.vlans.Keys && VlanNamesOf(vs) <= scope.vlans.Keys
    requires Realised(p, base, br, scope, taken, live)
    ensures Realised(PerformAll(faults, br, p, Drops(vs)), base, br, scope, taken, live - VlanNamesOf(vs))
  {
    if vs == [] {
      assert live - VlanNamesOf(vs) == live;
    } else {
      var front, last := vs[..|vs| - 1], vs[|vs| - 1];
      NamesSplit([], vs);
      PlansSplit([], vs);
      DropsRealise(faults, p, base, br, scope, taken, live, front);
      DropRealises(faults, PerformAll(faults, br, p, Drops(front)), base, br, scope, taken,
                   live - VlanNamesOf(front), VlanInterfaceName(last));
      assert live - VlanNamesOf(vs) == live - VlanNamesOf(front) - {VlanInterfaceName(last)};
    }
  }

  ghost predicate VlansInScope(scope: Scope, vs: seq<EgressVlanInterface>) {
    forall v :: v in vs ==>
      VlanInterfaceName(v) in scope.vlans && scope.vlans[VlanInterfaceName(v)] == Wanted(v.name, VlanKind(v))
  }

  lemma {:induction false} PutsRealise(faults: Faults, p: Plane, base: Plane, br: Handle, scope: Scope,
                                       taken: set<string>, live: set<string>, vs: seq<EgressVlanInterface>)
    requires forall n :: !faults(n)
    requires Untouched(base, br, scope) && live <= scope.vlans.Keys && taken !! scope.vlans.Keys
    requires VlansInScope(scope, vs)
    requires Realised(p, base, br, scope, taken, live)
    ensures Realised(PerformAll(faults, br, p, Puts(vs)), base, br, scope, taken,
                     live + Live(base, scope, VlanNamesOf(vs)))
  {
    if vs == [] {
      assert live + Live(base, scope, VlanNamesOf(vs)) == live;
    } else {
      var front, last := vs[..|vs| - 1], vs[|vs| - 1];
      NamesSplit([], vs);
      PlansSplit([], vs);
      PutsRealise(faults, p, base, br, scope, taken, live, front);
      var soFar := live + Live(base, scope, VlanNamesOf(front));
      PutRealises(faults, PerformAll(faults, br, p, Puts(front)), base, br, scope, taken, soFar,
                  VlanInterfaceName(last));
      LiveAdds(base, scope, VlanNamesOf(front), {VlanInterfaceName(last)});
      assert soFar + Live(base, scope, {VlanInterfaceName(last)}) == live + Live(base, scope, VlanNamesOf(vs));
    }
  }

  // ----- One update -----

  lemma MissingVlanNames(xs: seq<EgressVlanInterface>, ys: seq<EgressVlanInterface>)
    ensures forall n ::
              n in VlanNamesOf(Missing(xs, ys)) <==> exists v :: v in xs && v !in ys && VlanInterfaceName(v) == n
    ensures VlanNamesOf(Missing(xs, ys)) <= VlanNamesOf(xs)
  {
    forall v | v in xs || v in Missing(xs, ys) {
      MissingIff(xs, ys, v);
    }
  }

  /** The live VLAN names after an update from one list to the next, whatever was live before. */
  function LiveNext(base: Plane, scope: Scope, live: set<string>,
                    oldList: seq<EgressVlanInterface>, newList: seq<EgressVlanInterface>): set<string> {
    live - VlanNamesOf(Missing(oldList, newList)) + Live(base, scope, VlanNamesOf(Missing(newList, oldList)))
  }

  /** The live VLAN names after an update from a configuration in force. */
  function LiveAfter(base: Plane, scope: Scope, oldList: seq<EgressVlanInterface>,
                     newList: seq<EgressVlanInterface>): set<string>
  {
    LiveNext(base, scope, Live(base, scope, VlanNamesOf(oldList)), oldList, newList)
  }

  /** No entry that stays shares its link name with one that goes, unless an entry that comes has that name too. */
  ghost predicate KeepsNames(oldList: seq<EgressVlanInterface>, newList: seq<EgressVlanInterface>,
                             present: set<string>)
  {
    forall v, w :: v in oldList && v !in newList && w in oldList && w in newList && w.name in present
                   && VlanInterfaceName(v) == VlanInterfaceName(w)
                   ==> VlanInterfaceName(w) in VlanNamesOf(Missing(newList, oldList))
  }

  lemma LiveAfterIff(base: Plane, scope: Scope, oldList: seq<EgressVlanInterface>, newList: seq<EgressVlanInterface>)
    requires VlansInScope(scope, oldList) && VlansInScope(scope, newList)
    ensures LiveAfter(base, scope, oldList, newList) == Live(base, scope, VlanNamesOf(newList))
            <==> KeepsNames(oldList, newList, base.net.links.Keys)
  {
    MissingVlanNames(oldList, newList);
    MissingVlanNames(newList, oldList);
    var after, goal := LiveAfter(base, scope, oldList, newList), Live(base, scope, VlanNamesOf(newList));
    forall n | n in after
      ensures n in goal
    {
      if n in VlanNamesOf(oldList) {
        var v :| v in oldList && VlanInterfaceName(v) == n;
      }
    }
    if KeepsNames(oldList, newList, base.net.links.Keys) {
      forall n | n in goal
        ensures n in after
      {
        var w :| w in newList && VlanInterfaceName(w) == n;
      }
    } else {
      var v, w :| v in oldList && v !in newList && w in oldList && w in newList && w.name in base.net.links
                  && VlanInterfaceName(v) == VlanInterfaceName(w)
                  && VlanInterfaceName(w) !in VlanNamesOf(Missing(newList, oldList));
      assert VlanInterfaceName(w) in goal && VlanInterfaceName(w) !in after;
    }
  }

  ghost predicate InForce(p: Plane, base: Plane, br: Handle, scope: Scope, es: seq<EgressInterface>,
                          vs: seq<EgressVlanInterface>)
    requires Untouched(base, br, scope)
  {
    Realised(p, base, br, scope, Taken(base, EgressNamesOf(es)), Live(base, scope, VlanNamesOf(vs)))
  }

  lemma EgressUpdateRealises(faults: Faults, p: Plane, base: Plane, br: Handle, scope: Scope, live: set<string>,
                             oldList: seq<EgressInterface>, newList: seq<EgressInterface>)
    requires forall n :: !faults(n)
    requires Untouched(base, br, scope) && live <= scope.vlans.Keys
    requires EgressNamesOf(oldList) <= scope.egress && EgressNamesOf(newList) <= scope.egress
    requires Realised(p, base, br, scope, Taken(base, EgressNamesOf(oldList)), live)
    ensures Realised(PerformAll(faults, br, p, EgressPlan(oldList, newList)), base, br, scope,
                     Taken(base, EgressNamesOf(newList)), live)
  {
    var toRemove, toAdd := Missing(oldList, newList), Missing(newList, oldList);
    var o, n := EgressNamesOf(oldList), EgressNamesOf(newList);
    MissingNames(oldList, newList);
    MissingNames(newList, oldList);
    ReleasesRealise(faults, p, base, br, scope, o, live, toRemove);
    AttachesRealise(faults, PerformAll(faults, br, p, Releases(toRemove)), base, br, scope, o - (o - n), live, toAdd);
    assert o - (o - n) + (n - o) == n;
    PerformConcat(faults, br, p, Releases(toRemove), Attaches(toAdd));
  }

  lemma VlanUpdateRealises(faults: Faults, p: Plane, base: Plane, br: Handle, scope: Scope, taken: set<string>,
                           live: set<string>, oldList: seq<EgressVlanInterface>, newList: seq<EgressVlanInterface>)
    requires forall n :: !faults(n)
    requires Untouched(base, br, scope) && taken !! scope.vlans.Keys && live <= scope.vlans.Keys
    requires VlansInScope(scope, oldList) && VlansInScope(scope, newList)
    requires Realised(p, base, br, scope, taken, live)
    ensures Realised(PerformAll(faults, br, p, VlanPlan(oldList, newList)), base, br, scope,
                     taken, LiveNext(base, scope, live, oldList, newList))
  {
    var toRemove, toAdd := Missing(oldList, newList), Missing(newList, oldList);
    MissingVlanNames(oldList, newList);
    forall v | v in newList || v in toAdd {
      MissingIff(newList, oldList, v);
    }
    DropsRealise(faults, p, base, br, scope, taken, live, toRemove);
    PutsRealise(faults, PerformAll(faults, br, p, Drops(toRemove)), base, br, scope, taken,
                live - VlanNamesOf(toRemove), toAdd);
    PerformConcat(faults, br, p, Drops(toRemove), Puts(toAdd));
  }

  /** Where one update leads, whatever the two lists are and whichever VLAN interfaces are there. */
  lemma UpdateLeadsTo(faults: Faults, p: Plane, base: Plane, br: Handle, scope: Scope, live: set<string>,
                      oldConfig: Option<BridgeConfiguration>, config: BridgeConfiguration)
    requires forall n :: !faults(n)
    requires Untouched(base, br, scope) && live <= scope.vlans.Keys && config.name == br.name
    requires InScope(scope, config) && (oldConfig.Some? ==> InScope(scope, oldConfig.value))
    requires Realised(p, base, br, scope, Taken(base, EgressNamesOf(EgressOf(oldConfig))), live)
    ensures Realised(AfterUpdate(faults, p, oldConfig, config), base, br, scope,
                     Taken(base, EgressNamesOf(config.egressInterfaces)),
                     LiveNext(base, scope, live, VlansOf(oldConfig), config.egressVlanInterfaces))
  {
    var es, es' := EgressOf(oldConfig), config.egressInterfaces;
    var vs, vs' := VlansOf(oldConfig), config.egressVlanInterfaces;
    assert p.net.links[br.name].index == br.index;
    EgressUpdateRealises(faults, p, base, br, scope, live, es, es');
    VlanUpdateRealises(faults, PerformAll(faults, br, p, EgressPlan(es, es')), base, br, scope,
                       Taken(base, EgressNamesOf(es')), live, vs, vs');
    PerformConcat(faults, br, p, EgressPlan(es, es'), VlanPlan(vs, vs'));
  }

  lemma LiveIsUnique(p: Plane, base: Plane, br: Handle, scope: Scope, taken: set<string>, live: set<string>,
                     live': set<string>)
    requires Untouched(base, br, scope) && live <= scope.vlans.Keys && live' <= scope.vlans.Keys
    requires Realised(p, base, br, scope, taken, live)
    ensures Realised(p, base, br, scope, taken, live') <==> live == live'
  {
    if Realised(p, base, br, scope, taken, live') {
      assert base.net.links.Keys + live == base.net.links.Keys + live';
      assert live == (base.net.links.Keys + live) - base.net.links.Keys;
      assert live' == (base.net.links.Keys + live') - base.net.links.Keys;
    }
  }

  /** An update puts the new configuration in force exactly when it keeps the names of the VLAN entries that stay. */
  lemma UpdateInForceIff(faults: Faults, p: Plane, base: Plane, br: Handle, scope: Scope,
                         oldConfig: Option<BridgeConfiguration>, config: BridgeConfiguration)
    requires forall n :: !faults(n)
    requires Untouched(base, br, scope) && config.name == br.name
    requires InScope(scope, config) && (oldConfig.Some? ==> InScope(scope, oldConfig.value))
    requires InForce(p, base, br, scope, EgressOf(oldConfig), VlansOf(oldConfig))
    ensures InForce(AfterUpdate(faults, p, oldConfig, config), base, br, scope,
                    config.egressInterfaces, config.egressVlanInterfaces)
            <==> KeepsNames(VlansOf(oldConfig), config.egressVlanInterfaces, base.net.links.Keys)
  {
    UpdateLeadsTo(faults, p, base, br, scope, Live(base, scope, VlanNamesOf(VlansOf(oldConfig))), oldConfig, config);
    LiveAfterIff(base, scope, VlansOf(oldConfig), config.egressVlanInterfaces);
    LiveIsUnique(AfterUpdate(faults, p, oldConfig, config), base, br, scope,
                 Taken(base, EgressNamesOf(config.egressInterfaces)),
                 LiveAfter(base, scope, VlansOf(oldConfig), config.egressVlanInterfaces),
                 Live(base, scope, VlanNamesOf(config.egressVlanInterfaces)));
  }

  // ----- Chains of updates -----

  function Chain(faults: Faults, p: Plane, configs: seq<BridgeConfiguration>): Plane {
    if |configs| < 2 then p
    else
      var front := configs[..|configs| - 1];
      AfterUpdate(faults, Chain(faults, p, front), Some(configs[|configs| - 2]), configs[|configs| - 1])
  }

  /** A chain that each update of keeps the names of the VLAN entries that stay. */
  ghost predicate Steady(configs: seq<BridgeConfiguration>, br: Handle, present: set<string>) {
    && (forall i :: 0 <= i < |configs| ==> configs[i].name == br.name)
    && (forall i :: 0 < i < |configs| ==>
          KeepsNames(configs[i - 1].egressVlanInterfaces, configs[i].egressVlanInterfaces, present))
  }

  /** Same tables; same links, fresh indices aside. */
  ghost predicate Similar(base: Plane, p: Plane, q: Plane) {
    && p.ports == q.ports
    && p.net.links.Keys == q.net.links.Keys
    && (forall n :: n in base.net.links && n in p.net.links ==> p.net.links[n] == q.net.links[n])
    && (forall n :: n in p.net.links ==> p.net.links[n] == q.net.links[n].(index := p.net.links[n].index))
  }

  lemma RealisedIsSimilar(p: Plane, q: Plane, base: Plane, br: Handle, scope: Scope, taken: set<string>,
                          live: set<string>)
    requires Untouched(base, br, scope) && live <= scope.vlans.Keys
    requires Realised(p, base, br, scope, taken, live) && Realised(q, base, br, scope, taken, live)
    ensures Similar(base, p, q)
  {
    forall n | n in p.net.links
      ensures p.net.links[n] == q.net.links[n].(index := p.net.links[n].index)
    {
      if n in live {
        assert VlanLink(base.net, br, scope.vlans[n], p.net.links[n]);
        assert VlanLink(base.net, br, scope.vlans[n], q.net.links[n]);
      }
    }
  }
}
