/** Adding a configuration, updating it and deleting it again, with the port watcher running at any time in between. */
module WatchedRoundTrip {
  import opened Configuration
  import opened Netlink
  import opened Management
  import opened PortWatch
  import opened Reconcile
  import opened Bridges
  import opened Realisation
  import opened History
  import opened ChainExactness
  import opened Server
  import opened RoundTrip

  // ----- The mirror of a configuration in force -----

  /** What the watcher relies on in a state in which a bridge has just been added. */
  ghost predicate Watchable(base: Plane, br: Handle) {
    && KernelIndices(base.net.links) && Present(base.net.links, br)
    && (forall b :: b in base.ports ==> b in base.net.links)
    && Enslaved(base.net.links, br.name) == {}
    && br.name in base.ports && base.ports[br.name].Keys == {}
  }

  /** The base once the watcher has seen it. */
  function Watched(base: Plane): Plane
    requires forall b :: b in base.ports ==> b in base.net.links
  {
    base.(ports := Mirror(base.net.links, base.ports))
  }

  lemma EnslavedInForce(p: Plane, base: Plane, br: Handle, scope: Scope, taken: set<string>, live: set<string>,
                        b: string)
    requires Untouched(base, br, scope) && Watchable(base, br) && live <= scope.vlans.Keys
    requires forall n :: n in taken ==> Free(base, n)
    requires LinksRealised(p.net, base.net, br, scope, taken, live)
    requires b in base.ports
    ensures b in p.net.links
    ensures Enslaved(p.net.links, b) == if b == br.name then taken + live else Enslaved(base.net.links, b)
  {
    assert p.net.links[b].index == base.net.links[b].index;
    assert forall n :: n in base.net.links ==> n !in Enslaved(base.net.links, br.name);
    forall n | n in p.net.links
      ensures n in Enslaved(p.net.links, b)
              <==> n in if b == br.name then taken + live else Enslaved(base.net.links, b)
    {
      if n in live {
        assert VlanLink(base.net, br, scope.vlans[n], p.net.links[n]);
      } else {
        assert p.net.links[n] == Moved(base.net.links[n], br, n in taken);
      }
    }
  }

  lemma SameMirrored(links: map<string, Link>, links': map<string, Link>, ports: PortTable, ports': PortTable,
                     b: string)
    requires (forall c :: c in ports ==> c in links) && (forall c :: c in ports' ==> c in links')
    requires b in ports && b in ports' && ports[b] == ports'[b] && Enslaved(links, b) == Enslaved(links', b)
    ensures Mirror(links, ports)[b] == Mirror(links', ports')[b]
  {
  }

  lemma ManagedMirrored(links: map<string, Link>, ports: PortTable, b: string)
    requires forall c :: c in ports ==> c in links
    requires b in ports && forall n :: n in Enslaved(links, b) ==> n in ports[b] && ports[b][n]
    ensures var mirrored := Mirror(links, ports)[b];
            mirrored.Keys == Enslaved(links, b) && forall n :: n in mirrored ==> mirrored[n]
  {
  }

  lemma AllManagedIs(ports: map<string, bool>, names: set<string>, none: map<string, bool>)
    requires ports.Keys == names && (forall n :: n in ports ==> ports[n]) && none.Keys == {}
    ensures ports == none + map n | n in names :: true
  {
  }

  lemma MirroredPorts(p: Plane, base: Plane, br: Handle, scope: Scope, taken: set<string>, live: set<string>, b: string)
    requires Untouched(base, br, scope) && Watchable(base, br) && live <= scope.vlans.Keys
    requires forall n :: n in taken ==> Free(base, n)
    requires Realised(p, base, br, scope, taken, live)
    requires b in p.ports && forall c :: c in p.ports ==> c in p.net.links
    ensures Mirror(p.net.links, p.ports)[b] == Table(Mirror(base.net.links, base.ports), br.name, taken + live)[b]
  {
    EnslavedInForce(p, base, br, scope, taken, live, b);
    if b == br.name {
      ManagedMirrored(p.net.links, p.ports, b);
      ManagedMirrored(base.net.links, base.ports, b);
      AllManagedIs(Mirror(p.net.links, p.ports)[b], taken + live, Mirror(base.net.links, base.ports)[b]);
    } else {
      SameMirrored(p.net.links, base.net.links, p.ports, base.ports, b);
    }
  }

  /** A watcher pass in a state in force: as if the watcher had run before the bridge was used, and flags are kept. */
  lemma MirrorInForce(p: Plane, base: Plane, br: Handle, scope: Scope, taken: set<string>, live: set<string>)
    requires Untouched(base, br, scope) && Watchable(base, br) && live <= scope.vlans.Keys
    requires forall n :: n in taken ==> Free(base, n)
    requires Realised(p, base, br, scope, taken, live)
    ensures forall b :: b in p.ports ==> b in p.net.links
    ensures Mirror(p.net.links, p.ports) == Table(Mirror(base.net.links, base.ports), br.name, taken + live)
  {
    forall b | b in p.ports
      ensures b in p.net.links
    {
      EnslavedInForce(p, base, br, scope, taken, live, b);
    }
    forall b | b in p.ports
      ensures Mirror(p.net.links, p.ports)[b] == Table(Mirror(base.net.links, base.ports), br.name, taken + live)[b]
    {
      MirroredPorts(p, base, br, scope, taken, live, b);
    }
  }

  lemma WatchedStays(base: Plane, br: Handle, scope: Scope)
    requires Untouched(base, br, scope) && Watchable(base, br)
    ensures Watchable(Watched(base), br) && Untouched(Watched(base), br, scope)
  {
    ManagedMirrored(base.net.links, base.ports, br.name);
  }

  /** So the configuration stays in force, on top of the base as the watcher has seen it. */
  lemma WatchRealises(p: Plane, base: Plane, br: Handle, scope: Scope, taken: set<string>, live: set<string>)
    requires Untouched(base, br, scope) && Watchable(base, br) && live <= scope.vlans.Keys
    requires forall n :: n in taken ==> Free(base, n)
    requires Realised(p, base, br, scope, taken, live)
    ensures (forall b :: b in p.ports ==> b in p.net.links) && Untouched(Watched(base), br, scope)
    ensures Realised(p.(ports := Mirror(p.net.links, p.ports)), Watched(base), br, scope, taken, live)
  {
    WatchedStays(base, br, scope);
    MirrorInForce(p, base, br, scope, taken, live);
  }

  lemma WatchedTwice(base: Plane)
    requires forall b :: b in base.ports ==> b in base.net.links
    ensures Watched(Watched(base)) == Watched(base)
  {
    SecondPassChangesNothing(base.net.links, base.ports);
  }

  lemma WatchAgain(p: Plane, base: Plane, br: Handle, scope: Scope, taken: set<string>, live: set<string>)
    requires Untouched(base, br, scope) && Watchable(base, br) && live <= scope.vlans.Keys
    requires Untouched(Watched(base), br, scope) && forall n :: n in taken ==> Free(base, n)
    requires Realised(p, Watched(base), br, scope, taken, live)
    ensures forall b :: b in p.ports ==> b in p.net.links
    ensures Realised(p.(ports := Mirror(p.net.links, p.ports)), Watched(base), br, scope, taken, live)
  {
    WatchedStays(base, br, scope);
    WatchRealises(p, Watched(base), br, scope, taken, live);
    WatchedTwice(base);
  }

  // ----- Updates and watcher passes in turns -----

  /** The base, or the base as the watcher has seen it. */
  function Seen(base: Plane, watched: bool): Plane
    requires watched ==> forall b :: b in base.ports ==> b in base.net.links
  {
    if watched then Watched(base) else base
  }

  /** The egress interfaces of the configuration are in force, and some of the VLAN interfaces it wants. */
  ghost predicate InForceWith(p: Plane, base: Plane, watched: bool, br: Handle, scope: Scope,
                              config: BridgeConfiguration, live: set<string>)
    requires Untouched(base, br, scope) && (watched ==> Watchable(base, br))
  {
    && live <= scope.vlans.Keys && live <= VlanNamesOf(config.egressVlanInterfaces)
    && Untouched(Seen(base, watched), br, scope)
    && Realised(p, Seen(base, watched), br, scope, Taken(base, EgressNamesOf(config.egressInterfaces)), live)
  }

  lemma WatchLeavesInForce(p: Plane, base: Plane, watched: bool, br: Handle, scope: Scope, config: BridgeConfiguration,
                         live: set<string>)
    requires Untouched(base, br, scope) && Watchable(base, br)
    requires InForceWith(p, base, watched, br, scope, config, live)
    ensures forall b :: b in p.ports ==> b in p.net.links
    ensures InForceWith(p.(ports := Mirror(p.net.links, p.ports)), base, true, br, scope, config, live)
  {
    if watched {
      WatchAgain(p, base, br, scope, Taken(base, EgressNamesOf(config.egressInterfaces)), live);
    } else {
      WatchRealises(p, base, br, scope, Taken(base, EgressNamesOf(config.egressInterfaces)), live);
    }
  }

  lemma SameOnceWatched(base: Plane, scope: Scope, names: set<string>)
    requires forall b :: b in base.ports ==> b in base.net.links
    ensures Taken(Watched(base), names) == Taken(base, names) && Live(Watched(base), scope, names)
            == Live(base, scope, names)
  {
  }

  lemma UpdateLeavesInForce(faults: Faults, p: Plane, base: Plane, watched: bool, br: Handle, scope: Scope,
                          was: BridgeConfiguration, config: BridgeConfiguration, live: set<string>)
    returns (left: set<string>)
    requires forall n :: !faults(n)
    requires Untouched(base, br, scope) && (watched ==> Watchable(base, br))
    requires InForceWith(p, base, watched, br, scope, was, live)
    requires InScope(scope, was) && InScope(scope, config) && config.name == br.name
    ensures InForceWith(AfterUpdate(faults, p, Some(was), config), base, watched, br, scope, config, left)
  {
    var seen := Seen(base, watched);
    left := LiveNext(seen, scope, live, was.egressVlanInterfaces, config.egressVlanInterfaces);
    if watched {
      SameOnceWatched(base, scope, EgressNamesOf(was.egressInterfaces));
      SameOnceWatched(base, scope, EgressNamesOf(config.egressInterfaces));
    }
    LiveNextIsWanted(seen, scope, live, was.egressVlanInterfaces, config.egressVlanInterfaces);
    UpdateLeadsTo(faults, p, seen, br, scope, live, Some(was), config);
  }

  datatype Turn = Updating(config: BridgeConfiguration) | Watching

  /** The configuration the bridge follows after the turns. */
  function Latest(first: BridgeConfiguration, turns: seq<Turn>): BridgeConfiguration {
    if turns == [] then first
    else
      match turns[|turns| - 1]
      case Updating(config) => config
      case Watching => Latest(first, turns[..|turns| - 1])
  }

  ghost predicate TurnTo(faults: Faults, w: World, latest: BridgeConfiguration, turn: Turn, after: World) {
    match turn
    case Updating(config) => after == OnUpdate(faults, w, latest, config)
    case Watching => LookupsSucceed(w.plane.net.links, w.plane.ports) && after == OnPortWatch(w)
  }

  ghost predicate Turns(faults: Faults, worlds: seq<World>, first: BridgeConfiguration, turns: seq<Turn>) {
    && |worlds| == |turns| + 1
    && forall i :: 0 <= i < |turns| ==> TurnTo(faults, worlds[i], Latest(first, turns[..i]), turns[i], worlds[i + 1])
  }

  /** The configuration is one of this bridge and uses names of the scope. */
  ghost predicate Fits(br: Handle, scope: Scope, config: BridgeConfiguration) {
    config.name == br.name && InScope(scope, config)
  }

  ghost predicate AllFit(br: Handle, scope: Scope, turns: seq<Turn>) {
    forall t :: t in turns && t.Updating? ==> Fits(br, scope, t.config)
  }

  lemma {:induction false} LatestFits(br: Handle, scope: Scope, first: BridgeConfiguration, turns: seq<Turn>)
    requires Fits(br, scope, first) && AllFit(br, scope, turns)
    ensures Fits(br, scope, Latest(first, turns))
  {
    if turns != [] {
      LatestFits(br, scope, first, turns[..|turns| - 1]);
    }
  }

  ghost predicate PartlyInForce(p: Plane, base: Plane, watched: bool, br: Handle, scope: Scope,
                                config: BridgeConfiguration)
    requires Untouched(base, br, scope) && (watched ==> Watchable(base, br))
  {
    exists live :: InForceWith(p, base, watched, br, scope, config, live)
  }

  lemma TurnLeadsTo(faults: Faults, w: World, base: Plane, watched: bool, br: Handle, scope: Scope,
                    latest: BridgeConfiguration, turn: Turn, after: World)
    requires forall n :: !faults(n)
    requires Untouched(base, br, scope) && (watched || turn == Watching ==> Watchable(base, br))
    requires PartlyInForce(w.plane, base, watched, br, scope, latest)
    requires Fits(br, scope, latest) && (turn.Updating? ==> Fits(br, scope, turn.config))
    requires TurnTo(faults, w, latest, turn, after)
    ensures PartlyInForce(after.plane, base, watched || turn == Watching, br, scope,
                          if turn.Updating? then turn.config else latest)
  {
    var live :| InForceWith(w.plane, base, watched, br, scope, latest, live);
    match turn {
      case Updating(config) =>
        var left := UpdateLeavesInForce(faults, w.plane, base, watched, br, scope, latest, config, live);
        assert InForceWith(after.plane, base, watched, br, scope, config, left);
      case Watching =>
        WatchLeavesInForce(w.plane, base, watched, br, scope, latest, live);
    }
  }

  lemma {:induction false} TurnsKeepBridges(faults: Faults, worlds: seq<World>, first: BridgeConfiguration,
                                            turns: seq<Turn>, i: nat)
    requires Turns(faults, worlds, first, turns) && i < |worlds|
    ensures worlds[i].bridges == worlds[0].bridges
  {
    if i > 0 {
      TurnsKeepBridges(faults, worlds, first, turns, i - 1);
      assert TurnTo(faults, worlds[i - 1], Latest(first, turns[..i - 1]), turns[i - 1], worlds[i - 1 + 1]);
    }
  }

  lemma InForceIsPartly(p: Plane, base: Plane, br: Handle, scope: Scope, config: BridgeConfiguration)
    requires Untouched(base, br, scope)
    requires InForce(p, base, br, scope, config.egressInterfaces, config.egressVlanInterfaces)
    ensures PartlyInForce(p, base, false, br, scope, config)
  {
    assert InForceWith(p, base, false, br, scope, config, Live(base, scope, VlanNamesOf(config.egressVlanInterfaces)));
  }

  lemma NextTurn(first: BridgeConfiguration, turns: seq<Turn>, i: nat)
    requires i < |turns|
    ensures Latest(first, turns[..i + 1]) == if turns[i].Updating? then turns[i].config else Latest(first, turns[..i])
    ensures Watching in turns[..i + 1] <==> Watching in turns[..i] || turns[i] == Watching
  {
    var front, now := turns[..i], turns[..i + 1];
    assert now[..i] == front && now == front + [turns[i]];
  }

  /** Where updates and watcher passes lead, in any order. */
  lemma {:induction false} TurnsLeadTo(faults: Faults, worlds: seq<World>, base: Plane, br: Handle, scope: Scope,
                                       first: BridgeConfiguration, turns: seq<Turn>, i: nat)
    requires forall n :: !faults(n)
    requires Turns(faults, worlds, first, turns) && i < |worlds|
    requires Untouched(base, br, scope) && Fits(br, scope, first) && AllFit(br, scope, turns)
    requires Watching in turns[..i] ==> Watchable(base, br)
    requires PartlyInForce(worlds[0].plane, base, false, br, scope, first)
    ensures PartlyInForce(worlds[i].plane, base, Watching in turns[..i], br, scope, Latest(first, turns[..i]))
  {
    if i > 0 {
      var front, turn := turns[..i - 1], turns[i - 1];
      NextTurn(first, turns, i - 1);
      TurnsLeadTo(faults, worlds, base, br, scope, first, turns, i - 1);
      LatestFits(br, scope, first, front);
      assert TurnTo(faults, worlds[i - 1], Latest(first, front), turn, worlds[i - 1 + 1]);
      TurnLeadsTo(faults, worlds[i - 1], base, Watching in front, br, scope, Latest(first, front), turn, worlds[i]);
    }
  }

  // ----- From before Add to after Delete -----

  /**
   The node as the watcher needs it: indices are unique, positive and not to be
   given out again; registered bridges are there.
   */
  ghost predicate Sighted(w: World) {
    && KernelIndices(w.plane.net.links)
    && (forall n :: n in w.plane.net.links ==> w.plane.net.links[n].index < w.plane.net.next)
    && (forall b :: b in w.plane.ports ==> b in w.plane.net.links)
  }

  lemma FreshIsWatchable(faults: Faults, w: World, scope: Scope, config: BridgeConfiguration)
    requires forall n :: !faults(n)
    requires NothingKnown(w, scope, config.name) && Sighted(w)
    ensures Watchable(Fresh(faults, w, config), Handle(config.name, w.plane.net.next))
  {
    var base := Fresh(faults, w, config);
    assert base.net.links == w.plane.net.links[config.name := Link(w.plane.net.next, 0, Bridge, 0)];
  }

  lemma MirrorOfFresh(faults: Faults, w: World, scope: Scope, config: BridgeConfiguration)
    requires forall n :: !faults(n)
    requires NothingKnown(w, scope, config.name) && Sighted(w)
    ensures var base := Fresh(faults, w, config);
            && (forall b :: b in base.ports ==> b in base.net.links)
            && Mirror(base.net.links, base.ports) == Mirror(w.plane.net.links, w.plane.ports)[config.name := map[]]
  {
    var base := Fresh(faults, w, config);
    assert base.net.links == w.plane.net.links[config.name := Link(w.plane.net.next, 0, Bridge, 0)];
    FreshIsWatchable(faults, w, scope, config);
    ManagedMirrored(base.net.links, base.ports, config.name);
    forall b | b in w.plane.ports
      ensures Mirror(base.net.links, base.ports)[b] == Mirror(w.plane.net.links, w.plane.ports)[b]
    {
      assert Enslaved(base.net.links, b) == Enslaved(w.plane.net.links, b);
      SameMirrored(base.net.links, w.plane.net.links, base.ports, w.plane.ports, b);
    }
  }

  /** Draining leaves the base, as the watcher has seen it if it ran. */
  lemma DrainLeavesSeen(faults: Faults, p: Plane, base: Plane, watched: bool, br: Handle, scope: Scope,
                        config: BridgeConfiguration)
    requires forall n :: !faults(n)
    requires Untouched(base, br, scope) && (watched ==> Watchable(base, br)) && Fits(br, scope, config)
    requires PartlyInForce(p, base, watched, br, scope, config)
    ensures config.name in p.net.links && HandleOf(p.net.links, config.name) == br
    ensures var q := AfterDrain(faults, p, config);
            q.net.links == base.net.links && q.ports == Seen(base, watched).ports
  {
    var live :| InForceWith(p, base, watched, br, scope, config, live);
    if watched {
      SameOnceWatched(base, scope, EgressNamesOf(config.egressInterfaces));
    }
    DrainLeavesBase(faults, p, Seen(base, watched), br, scope, live, config);
  }

  /**
   Add, then updates with watcher passes anywhere in between, then Delete of the latest configuration: every link and
   every master is as before, and so are the tables, but for the mirroring of the other bridges if the watcher ran.
   */
  lemma AddTurnsDelete(faults: Faults, matches: Matches, w: World, scope: Scope, first: BridgeConfiguration,
                       worlds: seq<World>, turns: seq<Turn>)
    requires forall n :: !faults(n)
    requires NothingKnown(w, scope, first.name) && (Watching in turns ==> Sighted(w))
    requires var br := Handle(first.name, w.plane.net.next);
             Fits(br, scope, first) && AllFit(br, scope, turns)
    requires matches(first.nodeSelector) && matches(Latest(first, turns).nodeSelector)
    requires Turns(faults, worlds, first, turns) && worlds[0] == OnAdd(faults, matches, w, first)
    ensures var after := OnDelete(faults, matches, worlds[|turns|], Latest(first, turns));
            && after.plane.net.links == w.plane.net.links
            && after.plane.ports
               == (if Watching in turns then Mirror(w.plane.net.links, w.plane.ports) else w.plane.ports)
            && after.bridges == w.bridges
  {
    var base, br := Fresh(faults, w, first), Handle(first.name, w.plane.net.next);
    var watched, p, last := Watching in turns, worlds[|turns|].plane, Latest(first, turns);
    var ports := if watched then Mirror(w.plane.net.links, w.plane.ports) else w.plane.ports;
    AddInForce(faults, matches, w, scope, first);
    if watched {
      FreshIsWatchable(faults, w, scope, first);
      MirrorOfFresh(faults, w, scope, first);
    }
    assert turns[..|turns|] == turns;
    InForceIsPartly(worlds[0].plane, base, br, scope, first);
    TurnsLeadTo(faults, worlds, base, br, scope, first, turns, |turns|);
    TurnsKeepBridges(faults, worlds, first, turns, |turns|);
    LatestFits(br, scope, first, turns);
    DrainLeavesSeen(faults, p, base, watched, br, scope, last);
    var q := AfterDrain(faults, p, last);
    DeletingFreshBridge(faults, w, scope, last, q);
    DeletingRestores(faults, matches, w, worlds[|turns|], last, q, ports);
  }
}
