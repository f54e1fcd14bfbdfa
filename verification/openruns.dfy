/**
 Runs in an environment that also brings up links under configured bridge names. Deletions stay with own
 links exactly as long as the managed flags tell the truth; when they do not is stated here.
 */
module OpenRuns {
  import opened Configuration
  import opened Netlink
  import opened Management
  import opened PortWatch
  import opened Reconcile
  import opened Bridges
  import opened Server
  import opened Ownership

  /** Only generated VLAN names are protected from the environment. */
  ghost predicate OpenStep(faults: Faults, matches: Matches, names: Names, w: World, e: Event, after: World) {
    if e.Environment? then
      Allowed(names.(bridges := {}), w.plane.net.links, e.links)
      && after == w.(plane := w.plane.(net := w.plane.net.(links := e.links, next := e.next)))
    else Step(faults, matches, names, w, e, after)
  }

  ghost predicate OpenRun(faults: Faults, matches: Matches, names: Names, worlds: seq<World>, events: seq<Event>) {
    && |worlds| == |events| + 1
    && worlds[0].bridges == map[] && worlds[0].plane.ports == map[] && worlds[0].plane.net.log == []
    && forall i :: 0 <= i < |events| ==> OpenStep(faults, matches, names, worlds[i], events[i], worlds[i + 1])
  }

  lemma RunIsOpen(faults: Faults, matches: Matches, names: Names, worlds: seq<World>, events: seq<Event>)
    requires Run(faults, matches, names, worlds, events)
    ensures OpenRun(faults, matches, names, worlds, events)
  {
    forall i | 0 <= i < |events|
      ensures OpenStep(faults, matches, names, worlds[i], events[i], worlds[i + 1])
    {
      assert Step(faults, matches, names, worlds[i], events[i], worlds[i + 1]);
    }
  }

  // ----- Registration -----

  lemma UpdateKeepsBridges(faults: Faults, p: Plane, oldConfig: Option<BridgeConfiguration>,
                           config: BridgeConfiguration)
    ensures AfterUpdate(faults, p, oldConfig, config).ports.Keys == p.ports.Keys
  {
    if config.name in p.net.links {
      PlanKeepsBridges(faults, HandleOf(p.net.links, config.name), p, UpdatePlan(oldConfig, config));
    }
  }

  lemma ConfigureKeepsBridges(faults: Faults, p: Plane, config: BridgeConfiguration)
    ensures AfterConfigure(faults, p, config).ports.Keys == p.ports.Keys
  {
    var up := p.net.LinkAdd(faults, config.name, Bridge, 0).LinkSetUp(faults, config.name);
    UpdateKeepsBridges(faults, Plane(up, p.ports), None, config);
  }

  lemma UnconfigureKeepsBridges(faults: Faults, p: Plane, config: BridgeConfiguration, isManaged: bool)
    ensures AfterUnconfigure(faults, p, config, isManaged).ports.Keys == p.ports.Keys
  {
    if config.name in p.net.links {
      PlanKeepsBridges(faults, HandleOf(p.net.links, config.name), p, DrainPlan(config));
    }
  }

  lemma StepKeepsRegistered(faults: Faults, matches: Matches, names: Names, w: World, e: Event, after: World)
    requires OpenStep(faults, matches, names, w, e, after) && Registered(Tables(w.bridges, w.plane.ports))
    ensures Registered(Tables(after.bridges, after.plane.ports))
  {
    match e {
      case Added(config) =>
        var t := SetBridge(Tables(w.bridges, w.plane.ports), config.name, config.name !in w.plane.net.links);
        ConfigureKeepsBridges(faults, Plane(w.plane.net, t.ports), config);
      case Updated(oldConfig, config) => UpdateKeepsBridges(faults, w.plane, Some(oldConfig), config);
      case Deleted(config) => UnconfigureKeepsBridges(faults, w.plane, config, BridgeFlag(w.bridges, config.name));
      case PortsWatched =>
      case Environment(_, _) =>
    }
  }

  /** In every run, open or not and whatever the names are, the two tables agree on which bridges there are. */
  lemma {:induction false} RegisteredInEveryRun(faults: Faults, matches: Matches, names: Names, worlds: seq<World>,
                                                events: seq<Event>, i: nat)
    requires OpenRun(faults, matches, names, worlds, events) && i < |worlds|
    ensures Registered(Tables(worlds[i].bridges, worlds[i].plane.ports))
  {
    if i > 0 {
      RegisteredInEveryRun(faults, matches, names, worlds, events, i - 1);
      assert OpenStep(faults, matches, names, worlds[i - 1], events[i - 1], worlds[i - 1 + 1]);
      StepKeepsRegistered(faults, matches, names, worlds[i - 1], events[i - 1], worlds[i]);
    }
  }

  // ----- One deletion -----

  lemma ShorterLogDeletesOwn(log: seq<Call>, longer: seq<Call>)
    requires log <= longer && DeletesOwn(longer)
    ensures DeletesOwn(log)
  {
    forall k | 0 <= k < |log| && log[k].LinkDel?
      ensures Created(log[..k], log[k].name, log[k].index)
    {
      assert log[k] == longer[k] && log[..k] == longer[..k];
    }
  }

  lemma RemovingActionCreatesNothing(faults: Faults, br: Handle, p: Plane, a: Action, name: string, index: nat)
    requires a.Release? || a.DropVlan?
    ensures Created(Perform(faults, br, p, a).net.log, name, index) ==> Created(p.net.log, name, index)
  {
  }

  lemma {:induction false} RemovingCreatesNothing(faults: Faults, br: Handle, p: Plane, plan: seq<Action>,
                                                  name: string, index: nat)
    requires Removes(plan)
    ensures Created(PerformAll(faults, br, p, plan).net.log, name, index) ==> Created(p.net.log, name, index)
  {
    if plan != [] {
      var front := plan[..|plan| - 1];
      RemovingCreatesNothing(faults, br, p, front, name, index);
      RemovingActionCreatesNothing(faults, br, PerformAll(faults, br, p, front), plan[|plan| - 1], name, index);
    }
  }

  lemma LastDeletionIff(log: seq<Call>, call: Call)
    requires DeletesOwn(log) && call.LinkDel?
    ensures DeletesOwn(log + [call]) <==> Created(log, call.name, call.index)
  {
    var longer := log + [call];
    assert longer[..|log|] == log;
    if Created(log, call.name, call.index) {
      forall k | 0 <= k < |longer| && longer[k].LinkDel?
        ensures Created(longer[..k], longer[k].name, longer[k].index)
      {
        assert k < |log| ==> longer[..k] == log[..k];
      }
    } else {
      assert longer[|log|] == call;
    }
  }

  /** Is the bridge put up for deletion? The condition of `DeletionIff`. */
  predicate PutUpForDeletion(p: Plane, config: BridgeConfiguration, isManaged: bool) {
    && config.name in p.net.links && config.name in p.ports && isManaged
    && forall n :: n in p.ports[config.name] && n !in EgressNames(config) ==> p.ports[config.name][n]
  }

  /** If the bridge is put up for deletion, the daemon created it. */
  ghost predicate Truthful(p: Plane, config: BridgeConfiguration, isManaged: bool) {
    PutUpForDeletion(p, config, isManaged) ==> Created(p.net.log, config.name, p.net.links[config.name].index)
  }

  /** Whatever fails, tearing down a bridge deletes own links only exactly when its flag tells the truth. */
  lemma UnconfigureDeletesOwnIff(faults: Faults, names: Names, p: Plane, config: BridgeConfiguration, isManaged: bool)
    requires names.egress !! names.vlans && OwnVlans(p, names.vlans) && Uses(names, config)
    requires DeletesOwn(p.net.log)
    ensures DeletesOwn(AfterUnconfigure(faults, p, config, isManaged).net.log) <==> Truthful(p, config, isManaged)
  {
    if config.name in p.net.links {
      var br, q := HandleOf(p.net.links, config.name), AfterDrain(faults, p, config);
      PlanUsesNames(names, config.egressInterfaces, [], config.egressVlanInterfaces, []);
      PlanIsProper(faults, names, br, p, DrainPlan(config));
      DrainPlanRemoves(config);
      RemovingCreatesNothing(faults, br, p, DrainPlan(config), br.name, br.index);
      var gone := q.net.LinkDel(faults, br);
      LastDeletionIff(q.net.log, gone.log[|q.net.log|]);
      if config.name in p.ports {
        DeletionIff(faults, p, config, isManaged);
      }
    }
  }

  /** What else tearing down keeps, whether or not the flag tells the truth. */
  lemma UnconfigureKeepsVlans(faults: Faults, names: Names, p: Plane, config: BridgeConfiguration, isManaged: bool)
    requires names.egress !! names.vlans && OwnVlans(p, names.vlans) && Uses(names, config)
    ensures var q := AfterUnconfigure(faults, p, config, isManaged);
            p.net.log <= q.net.log && OwnVlans(q, names.vlans)
  {
    if config.name in p.net.links {
      var br, q := HandleOf(p.net.links, config.name), AfterDrain(faults, p, config);
      PlanUsesNames(names, config.egressInterfaces, [], config.egressVlanInterfaces, []);
      PlanIsProper(faults, names, br, p, DrainPlan(config));
      var gone := q.net.LinkDel(faults, br);
      forall n | Own(q.net, n)
        ensures Own(gone, n)
      {
      }
    }
  }

  // ----- Whole runs -----

  lemma StepDeletesOwnIff(faults: Faults, matches: Matches, names: Names, w: World, e: Event, after: World)
    requires names.egress !! names.vlans
    requires OpenStep(faults, matches, names, w, e, after) && OwnVlans(w.plane, names.vlans)
    ensures OwnVlans(after.plane, names.vlans)
    ensures DeletesOwn(after.plane.net.log) <==> DeletesOwn(w.plane.net.log) && TellsTruth(matches, w, e)
  {
    match e {
      case Added(config) =>
        var t := SetBridge(Tables(w.bridges, w.plane.ports), config.name, config.name !in w.plane.net.links);
        var p := Plane(w.plane.net, t.ports);
        assert forall b, n :: PortManaged(t.ports, b, n) ==> PortManaged(w.plane.ports, b, n);
        ConfigureIsProper(faults, names, p, config);
      case Updated(oldConfig, config) => UpdateIsProper(faults, names, w.plane, Some(oldConfig), config);
      case Deleted(config) => DeleteDeletesOwnIff(faults, matches, names, w, config);
      case PortsWatched => WatchKeepsVlans(w, names.vlans);
      case Environment(links, next) =>
        var net := w.plane.net.(links := links, next := next);
        assert forall n :: n in names.vlans && Own(w.plane.net, n) ==> Own(net, n);
    }
    if DeletesOwn(after.plane.net.log) {
      assert w.plane.net.log <= after.plane.net.log;
      ShorterLogDeletesOwn(w.plane.net.log, after.plane.net.log);
    }
  }

  /** A deletion event finds a flag that tells the truth; other events do not depend on flags. */
  ghost predicate TellsTruth(matches: Matches, w: World, e: Event) {
    e.Deleted? && matches(e.config.nodeSelector) ==> Truthful(w.plane, e.config, BridgeFlag(w.bridges, e.config.name))
  }

  lemma DeleteDeletesOwnIff(faults: Faults, matches: Matches, names: Names, w: World, config: BridgeConfiguration)
    requires names.egress !! names.vlans && OwnVlans(w.plane, names.vlans) && Uses(names, config)
    ensures var after := OnDelete(faults, matches, w, config);
            && w.plane.net.log <= after.plane.net.log && OwnVlans(after.plane, names.vlans)
            && (DeletesOwn(w.plane.net.log) ==>
                  (DeletesOwn(after.plane.net.log) <==> TellsTruth(matches, w, Deleted(config))))
  {
    if matches(config.nodeSelector) {
      var managed := BridgeFlag(w.bridges, config.name);
      var q, after := AfterUnconfigure(faults, w.plane, config, managed), OnDelete(faults, matches, w, config);
      UnconfigureKeepsVlans(faults, names, w.plane, config, managed);
      assert forall b, n :: PortManaged(after.plane.ports, b, n) ==> PortManaged(q.ports, b, n);
      if DeletesOwn(w.plane.net.log) {
        UnconfigureDeletesOwnIff(faults, names, w.plane, config, managed);
      }
    }
  }

  lemma WatchKeepsVlans(w: World, vlans: set<string>)
    requires OwnVlans(w.plane, vlans) && forall b :: b in w.plane.ports ==> b in w.plane.net.links
    ensures OwnVlans(OnPortWatch(w).plane, vlans)
  {
    var mirror := Mirror(w.plane.net.links, w.plane.ports);
    forall b, n | PortManaged(mirror, b, n)
      ensures PortManaged(w.plane.ports, b, n)
    {
      assert mirror[b][n] == (n in w.plane.ports[b] && w.plane.ports[b][n]);
    }
  }

  /**
   In every open run, all deletions so far were of own links exactly when every deletion event found a truthful flag.
   */
  lemma {:induction false} DeletesOwnIff(faults: Faults, matches: Matches, names: Names, worlds: seq<World>,
                                         events: seq<Event>, i: nat)
    requires names.egress !! names.vlans
    requires OpenRun(faults, matches, names, worlds, events) && i < |worlds|
    ensures OwnVlans(worlds[i].plane, names.vlans)
    ensures DeletesOwn(worlds[i].plane.net.log)
            <==> forall j :: 0 <= j < i ==> TellsTruth(matches, worlds[j], events[j])
  {
    if i > 0 {
      DeletesOwnIff(faults, matches, names, worlds, events, i - 1);
      assert OpenStep(faults, matches, names, worlds[i - 1], events[i - 1], worlds[i - 1 + 1]);
      StepDeletesOwnIff(faults, matches, names, worlds[i - 1], events[i - 1], worlds[i]);
    }
  }

  /** In the runs of `Ownership`, every deletion event finds a truthful flag. */
  lemma TruthfulInRuns(faults: Faults, matches: Matches, names: Names, worlds: seq<World>, events: seq<Event>, i: nat)
    requires names.egress !! names.vlans
    requires Run(faults, matches, names, worlds, events) && i < |events|
    ensures TellsTruth(matches, worlds[i], events[i])
  {
    RunIsOpen(faults, matches, names, worlds, events);
    RunKeepsInv(faults, matches, names, worlds, events, i + 1);
    DeletesOwnIff(faults, matches, names, worlds, events, i + 1);
  }

  // ----- How a flag comes to be untrue -----

  /**
   Adding an unregistered configuration under an unused name flags the bridge as created, and it is untrue exactly when
   creating it fails.
   */
  lemma AddedFlagIff(faults: Faults, matches: Matches, w: World, config: BridgeConfiguration)
    requires matches(config.nodeSelector)
    requires config.name !in w.bridges && config.name !in w.plane.ports && config.name !in w.plane.net.links
    ensures var log, after := w.plane.net.log, OnAdd(faults, matches, w, config);
            && BridgeFlag(after.bridges, config.name)
            && log <= after.plane.net.log
            && ((forall i :: !Created(after.plane.net.log[|log|..], config.name, i)) <==> faults(|log|))
  {
    var net, after := w.plane.net, OnAdd(faults, matches, w, config);
    var added := net.LinkAdd(faults, config.name, Bridge, 0);
    if faults(|net.log|) {
      assert after.plane.net == added;
      assert added.log[|net.log|..] == [Call.LinkAdd(config.name, net.next, false)];
    } else {
      AddGrowsLog(faults, matches, w, config);
      assert added.log <= after.plane.net.log;
      var call := Call.LinkAdd(config.name, net.next, true);
      assert added.log[|net.log|] == call && after.plane.net.log[|net.log|] == call;
      assert after.plane.net.log[|net.log|..][0] == call;
      assert Created(after.plane.net.log[|net.log|..], config.name, net.next);
    }
  }

  lemma AddGrowsLog(faults: Faults, matches: Matches, w: World, config: BridgeConfiguration)
    requires matches(config.nodeSelector)
    ensures w.plane.net.LinkAdd(faults, config.name, Bridge, 0).log <= OnAdd(faults, matches, w, config).plane.net.log
  {
    var added := w.plane.net.LinkAdd(faults, config.name, Bridge, 0);
    var up := added.LinkSetUp(faults, config.name);
    var t := SetBridge(Tables(w.bridges, w.plane.ports), config.name, config.name !in w.plane.net.links);
    if added.Succeeded() && up.Succeeded() && config.name in up.links {
      PlanGrowsLog(faults, HandleOf(up.links, config.name), Plane(up, t.ports), UpdatePlan(None, config));
    }
  }

  /**
   An open run in which a foreign bridge is deleted: creating the bridge fails, it stays flagged as created, and
   the environment brings up a bridge under its name, which no run of `Ownership` allows.
   */
  lemma ForeignBridgeDeleted(faults: Faults, matches: Matches, config: BridgeConfiguration, foreign: Link)
    returns (names: Names, worlds: seq<World>, events: seq<Event>)
    requires matches(config.nodeSelector) && config.egressInterfaces == [] && config.egressVlanInterfaces == []
    requires faults(0) && !faults(1)
    ensures OpenRun(faults, matches, names, worlds, events)
    ensures events == [Added(config), Environment(map[config.name := foreign], 1), Deleted(config)]
    ensures !Allowed(names, worlds[1].plane.net.links, worlds[2].plane.net.links)
    ensures config.name !in worlds[3].plane.net.links
    ensures !DeletesOwn(worlds[3].plane.net.log)
  {
    names := Names({config.name}, {}, {});
    var links := map[config.name := foreign];
    var start := World(Plane(Net(map[], 1, []), map[]), map[]);
    var added := OnAdd(faults, matches, start, config);
    assert added == World(Plane(Net(map[], 1, [Call.LinkAdd(config.name, 1, false)]), map[config.name := map[]]),
                          map[config.name := true]);
    var intruded := added.(plane := added.plane.(net := added.plane.net.(links := links, next := 1)));
    var deleted := OnDelete(faults, matches, intruded, config);
    assert DrainPlan(config) == [];
    assert AfterDrain(faults, intruded.plane, config) == intruded.plane;
    worlds := [start, added, intruded, deleted];
    events := [Added(config), Environment(links, 1), Deleted(config)];
    DeleteDeletesOwnIff(faults, matches, names, intruded, config);
    assert !Truthful(intruded.plane, config, true);
  }
}
