/**
 Which bridges are registered, and as whose: what Add and Delete do to the tables whatever fails, and over whole runs.
 */
module Registration {
  import opened Configuration
  import opened Netlink
  import opened Management
  import opened Reconcile
  import opened Bridges
  import opened Server
  import opened Ownership
  import opened ChainExactness
  import opened OpenRuns

  // ----- Other bridges -----

  /** Other bridges' ports are what they were. */
  ghost predicate OthersKept(was: PortTable, now: PortTable, bridge: string) {
    forall b :: b in was && b != bridge ==> b in now && now[b] == was[b]
  }

  lemma ActionKeepsOthers(faults: Faults, br: Handle, p: Plane, a: Action)
    ensures OthersKept(p.ports, Perform(faults, br, p, a).ports, br.name)
  {
  }

  lemma {:induction false} PlanKeepsOthers(faults: Faults, br: Handle, p: Plane, plan: seq<Action>)
    ensures OthersKept(p.ports, PerformAll(faults, br, p, plan).ports, br.name)
  {
    if plan != [] {
      var front := plan[..|plan| - 1];
      PlanKeepsOthers(faults, br, p, front);
      ActionKeepsOthers(faults, br, PerformAll(faults, br, p, front), plan[|plan| - 1]);
    }
  }

  lemma UpdateKeepsOthers(faults: Faults, p: Plane, oldConfig: Option<BridgeConfiguration>, config: BridgeConfiguration)
    ensures OthersKept(p.ports, AfterUpdate(faults, p, oldConfig, config).ports, config.name)
  {
    if config.name in p.net.links {
      PlanKeepsOthers(faults, HandleOf(p.net.links, config.name), p, UpdatePlan(oldConfig, config));
    }
  }

  // ----- The handlers -----

  /**
   Whatever fails, and whether or not the bridge is there, Delete takes it out of both tables and leaves the others.
   */
  lemma DeleteUnregisters(faults: Faults, matches: Matches, w: World, config: BridgeConfiguration)
    requires matches(config.nodeSelector)
    ensures var after := OnDelete(faults, matches, w, config);
            && after.bridges == w.bridges - {config.name}
            && after.plane.ports.Keys == w.plane.ports.Keys - {config.name}
            && OthersKept(w.plane.ports, after.plane.ports, config.name)
  {
    UnconfigureKeepsBridges(faults, w.plane, config, BridgeFlag(w.bridges, config.name));
    if config.name in w.plane.net.links {
      PlanKeepsOthers(faults, HandleOf(w.plane.net.links, config.name), w.plane, DrainPlan(config));
    }
  }

  /**
   Whatever fails, Add registers the bridge, as created by the daemon exactly if there was no such link, and leaves a
   registered one as it is. It always tries to create the link, and goes no further than that fails.
   */
  lemma AddRegisters(faults: Faults, matches: Matches, w: World, config: BridgeConfiguration)
    requires matches(config.nodeSelector)
    ensures var name, net, after := config.name, w.plane.net, OnAdd(faults, matches, w, config);
            && after.bridges == (if name in w.bridges then w.bridges else w.bridges[name := name !in net.links])
            && (name in w.bridges ==> after.plane.ports.Keys == w.plane.ports.Keys)
            && (name !in w.bridges ==> after.plane.ports.Keys == w.plane.ports.Keys + {name})
            && OthersKept(w.plane.ports, after.plane.ports, name)
            && var made, call := !faults(|net.log|) && name !in net.links,
                                 Call.LinkAdd(name, net.next, !faults(|net.log|) && name !in net.links);
               && net.log + [call] <= after.plane.net.log
               && (!made ==>
                     && after.plane.net == net.(log := net.log + [call])
                     && after.plane.ports == if name in w.bridges || name in w.plane.ports then w.plane.ports
                                             else w.plane.ports[name := map[]])
               && (made && faults(|net.log| + 1) ==>
                     after.plane.net == Net(net.links[name := Link(net.next, 0, Bridge, 0)], net.next + 1,
                                            net.log + [call, Call.LinkSetUp(name, false)]))
  {
    AddGrowsLog(faults, matches, w, config);
    AddKeepsTables(faults, matches, w, config);
  }

  lemma AddKeepsTables(faults: Faults, matches: Matches, w: World, config: BridgeConfiguration)
    requires matches(config.nodeSelector)
    ensures var after := OnAdd(faults, matches, w, config);
            && (config.name in w.bridges ==> after.plane.ports.Keys == w.plane.ports.Keys)
            && (config.name !in w.bridges ==> after.plane.ports.Keys == w.plane.ports.Keys + {config.name})
            && OthersKept(w.plane.ports, after.plane.ports, config.name)
  {
    var t := SetBridge(Tables(w.bridges, w.plane.ports), config.name, config.name !in w.plane.net.links);
    ConfigureKeepsBridges(faults, Plane(w.plane.net, t.ports), config);
    var up := w.plane.net.LinkAdd(faults, config.name, Bridge, 0).LinkSetUp(faults, config.name);
    UpdateKeepsOthers(faults, Plane(up, t.ports), None, config);
  }

  // ----- Tearing down -----

  lemma DrainLeavesBridge(faults: Faults, p: Plane, config: BridgeConfiguration)
    requires config.name in p.net.links && config.name !in VlanNamesOf(config.egressVlanInterfaces)
    ensures Present(AfterDrain(faults, p, config).net.links, HandleOf(p.net.links, config.name))
  {
    var br := HandleOf(p.net.links, config.name);
    DrainPlanIs(config);
    VlanActionsUse(config.egressVlanInterfaces, config.name);
    assert NoVlan(Releases(config.egressInterfaces), config.name);
    PlanLeavesLink(faults, br, p, DrainPlan(config), br);
  }

  /**
   Whatever fails, tearing down reports success exactly when the bridge was there, one flagged as created had a port
   table, and a bridge put up for deletion is gone. No link is then enslaved to it any more.
   */
  lemma TeardownReports(faults: Faults, p: Plane, config: BridgeConfiguration, isManaged: bool)
    requires config.name !in VlanNamesOf(config.egressVlanInterfaces)
    requires config.name in p.net.links ==> p.net.links[config.name].index != 0
    ensures var links, after := p.net.links, AfterUnconfigure(faults, p, config, isManaged).net.links;
            && (UnconfigureSucceeds(faults, p, config, isManaged)
                <==> && config.name in links && (isManaged ==> config.name in p.ports)
                     && (PutUpForDeletion(p, config, isManaged) ==> config.name !in after))
            && (config.name in links && config.name !in after ==>
                  forall n :: n in after ==> after[n].master != links[config.name].index)
            && (!PutUpForDeletion(p, config, isManaged) ==> (config.name in after <==> config.name in links))
  {
    if config.name in p.net.links {
      var br, q := HandleOf(p.net.links, config.name), AfterDrain(faults, p, config);
      DrainLeavesBridge(faults, p, config);
      PlanKeepsBridges(faults, br, p, DrainPlan(config));
      if config.name in p.ports {
        DeletionIff(faults, p, config, isManaged);
        DrainPlanRemoves(config);
        RemovingPlanShrinks(faults, br, p, DrainPlan(config));
        assert isManaged ==> (AllManaged(q.ports[config.name]) <==> PutUpForDeletion(p, config, isManaged));
      }
    }
  }

  // ----- Whole runs -----

  /** The event adds a configuration of this bridge that selects the node. */
  ghost predicate Adds(matches: Matches, e: Event, bridge: string) {
    e.Added? && e.config.name == bridge && matches(e.config.nodeSelector)
  }

  ghost predicate Deletes(matches: Matches, e: Event, bridge: string) {
    e.Deleted? && e.config.name == bridge && matches(e.config.nodeSelector)
  }

  /** The j-th event added the bridge, and none has deleted it since. */
  ghost predicate AddedSince(matches: Matches, events: seq<Event>, j: nat, i: nat, bridge: string) {
    && j < i <= |events| && Adds(matches, events[j], bridge)
    && forall k :: j < k < i ==> !Deletes(matches, events[k], bridge)
  }

  lemma StepRegisters(faults: Faults, matches: Matches, names: Names, w: World, e: Event, after: World, bridge: string)
    requires OpenStep(faults, matches, names, w, e, after)
    ensures bridge in after.bridges
            <==> Adds(matches, e, bridge) || (bridge in w.bridges && !Deletes(matches, e, bridge))
    ensures bridge in after.bridges ==>
              after.bridges[bridge] == if bridge in w.bridges then w.bridges[bridge] else bridge !in w.plane.net.links
  {
    if e.Added? && matches(e.config.nodeSelector) {
      AddRegisters(faults, matches, w, e.config);
    } else if e.Deleted? && matches(e.config.nodeSelector) {
      DeleteUnregisters(faults, matches, w, e.config);
    }
  }

  lemma AddedSinceNext(matches: Matches, events: seq<Event>, i: nat, bridge: string)
    requires i < |events|
    ensures forall j: nat :: j < i ==>
              (AddedSince(matches, events, j, i + 1, bridge)
               <==> AddedSince(matches, events, j, i, bridge) && !Deletes(matches, events[i], bridge))
    ensures AddedSince(matches, events, i, i + 1, bridge) <==> Adds(matches, events[i], bridge)
  {
  }

  /** By the i-th event the bridge has been added and not deleted since. */
  ghost predicate IsAdded(matches: Matches, events: seq<Event>, i: nat, bridge: string) {
    exists j: nat :: AddedSince(matches, events, j, i, bridge)
  }

  lemma AddedIff(matches: Matches, events: seq<Event>, i: nat, bridge: string)
    requires i < |events|
    ensures IsAdded(matches, events, i + 1, bridge)
            <==> || Adds(matches, events[i], bridge)
                 || (IsAdded(matches, events, i, bridge) && !Deletes(matches, events[i], bridge))
  {
    AddedSinceNext(matches, events, i, bridge);
    if IsAdded(matches, events, i + 1, bridge) {
      var j: nat :| AddedSince(matches, events, j, i + 1, bridge);
      assert j < i ==> AddedSince(matches, events, j, i, bridge);
    }
    if Adds(matches, events[i], bridge) {
      assert AddedSince(matches, events, i, i + 1, bridge);
    } else if IsAdded(matches, events, i, bridge) && !Deletes(matches, events[i], bridge) {
      var j: nat :| AddedSince(matches, events, j, i, bridge);
      assert AddedSince(matches, events, j, i + 1, bridge);
    }
  }

  /**
   In every run, whatever fails and whatever the environment does: a bridge is registered exactly when a configuration
   of it that selects the node has been added and none has been deleted since. Its flag says whether there was no such
   link when it came to be registered.
   */
  lemma {:induction false} RegisteredIff(faults: Faults, matches: Matches, names: Names, worlds: seq<World>,
                                         events: seq<Event>, i: nat, bridge: string)
    requires OpenRun(faults, matches, names, worlds, events) && i < |worlds|
    ensures bridge in worlds[i].bridges <==> IsAdded(matches, events, i, bridge)
    ensures bridge in worlds[i].plane.ports <==> bridge in worlds[i].bridges
    ensures bridge in worlds[i].bridges ==>
              exists j: nat :: && AddedSince(matches, events, j, i, bridge) && bridge !in worlds[j].bridges
                               && worlds[i].bridges[bridge] == (bridge !in worlds[j].plane.net.links)
  {
    RegisteredInEveryRun(faults, matches, names, worlds, events, i);
    if i > 0 {
      var w, e := worlds[i - 1], events[i - 1];
      RegisteredIff(faults, matches, names, worlds, events, i - 1, bridge);
      assert OpenStep(faults, matches, names, w, e, worlds[i - 1 + 1]);
      StepRegisters(faults, matches, names, w, e, worlds[i], bridge);
      AddedSinceNext(matches, events, i - 1, bridge);
      AddedIff(matches, events, i - 1, bridge);
      if bridge in worlds[i].bridges && bridge in w.bridges {
        var j: nat :| && AddedSince(matches, events, j, i - 1, bridge) && bridge !in worlds[j].bridges
                      && w.bridges[bridge] == (bridge !in worlds[j].plane.net.links);
        assert AddedSince(matches, events, j, i, bridge);
      }
    }
  }
}
