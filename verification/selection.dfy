/**
 Node selection: add and delete leave a node alone that a configuration does not select, update does not.
 What an update does there is not recorded, so nothing undoes it.
 */
module Selection {
  import opened Configuration
  import opened Netlink
  import opened Reconcile
  import opened Bridges
  import opened Server
  import opened Ownership
  import opened ChainExactness

  // ----- An update of a bridge that is not registered -----

  /** On an unregistered bridge an action finds nothing to do. */
  predicate Idle(links: map<string, Link>, br: Handle, a: Action) {
    match a
    case Release(_) => true
    case Attach(name) => name !in links || links[name].master != 0
    case DropVlan(_) => true
    case PutVlan(v) =>
      v.name !in links || (VlanInterfaceName(v) in links && links[VlanInterfaceName(v)].master == br.index)
  }

  lemma UnregisteredAction(faults: Faults, br: Handle, p: Plane, a: Action)
    requires br.name !in p.ports && br.index != 0
    ensures var q := Perform(faults, br, p, a);
            && q.ports == p.ports
            && if Idle(p.net.links, br, a) then q == p else |p.net.log| < |q.net.log|
  {
  }

  /** Whatever fails, the plan asks the kernel for nothing exactly when each of its actions is idle at the start. */
  lemma {:induction false} UnregisteredPlan(faults: Faults, br: Handle, p: Plane, plan: seq<Action>)
    requires br.name !in p.ports && br.index != 0
    ensures var q := PerformAll(faults, br, p, plan);
            && q.ports == p.ports
            && if forall a :: a in plan ==> Idle(p.net.links, br, a) then q == p else |p.net.log| < |q.net.log|
  {
    if plan != [] {
      var front, last := plan[..|plan| - 1], plan[|plan| - 1];
      assert plan == front + [last];
      UnregisteredPlan(faults, br, p, front);
      UnregisteredAction(faults, br, PerformAll(faults, br, p, front), last);
      ActionGrowsLog(faults, br, PerformAll(faults, br, p, front), last);
    }
  }

  /** Every egress entry that is new names a link that is absent or has a master. */
  ghost predicate NothingToTake(links: map<string, Link>, oldList: seq<EgressInterface>,
                                newList: seq<EgressInterface>)
  {
    forall e :: e in newList && e !in oldList ==> e.name !in links || links[e.name].master != 0
  }

  /** Every VLAN entry that is new has an absent parent, or its link is on the bridge. */
  ghost predicate NothingToPut(links: map<string, Link>, br: Handle,
                               oldList: seq<EgressVlanInterface>, newList: seq<EgressVlanInterface>)
  {
    forall v :: v in newList && v !in oldList ==>
      v.name !in links || (VlanInterfaceName(v) in links && links[VlanInterfaceName(v)].master == br.index)
  }

  lemma IdleEgressPlanIff(links: map<string, Link>, br: Handle, oldList: seq<EgressInterface>,
                          newList: seq<EgressInterface>)
    ensures (forall a :: a in EgressPlan(oldList, newList) ==> Idle(links, br, a))
            <==> NothingToTake(links, oldList, newList)
  {
    var toRemove, toAdd := Missing(oldList, newList), Missing(newList, oldList);
    assert EgressPlan(oldList, newList) == Releases(toRemove) + Attaches(toAdd);
    forall e {
      MissingIff(newList, oldList, e);
    }
    forall e | e in toAdd
      ensures Attach(e.name) in Attaches(toAdd)
    {
      var i :| 0 <= i < |toAdd| && toAdd[i] == e;
      assert Attaches(toAdd)[i] == Attach(e.name);
    }
    assert forall e :: e in toAdd ==>
      (Idle(links, br, Attach(e.name)) <==> e.name !in links || links[e.name].master != 0);
  }

  lemma IdleVlanPlanIff(links: map<string, Link>, br: Handle,
                        oldList: seq<EgressVlanInterface>, newList: seq<EgressVlanInterface>)
    ensures (forall a :: a in VlanPlan(oldList, newList) ==> Idle(links, br, a))
            <==> NothingToPut(links, br, oldList, newList)
  {
    var toRemove, toAdd := Missing(oldList, newList), Missing(newList, oldList);
    assert VlanPlan(oldList, newList) == Drops(toRemove) + Puts(toAdd);
    forall v {
      MissingIff(newList, oldList, v);
    }
    forall v | v in toAdd
      ensures PutVlan(v) in Puts(toAdd)
    {
      var i :| 0 <= i < |toAdd| && toAdd[i] == v;
      assert Puts(toAdd)[i] == PutVlan(v);
    }
    forall a | a in Puts(toAdd)
      ensures a.vlan in toAdd && a == PutVlan(a.vlan)
    {
    }
    assert forall v :: v in toAdd ==>
      (Idle(links, br, PutVlan(v)) <==>
         v.name !in links || (VlanInterfaceName(v) in links && links[VlanInterfaceName(v)].master == br.index));
  }

  /**
   Whatever fails, an update leaves a node where the bridge is not registered as it is, and asks the kernel for
   nothing, exactly when the bridge link is missing or no entry that is new has anything to take or to put.
   */
  lemma UnregisteredUpdateIff(faults: Faults, w: World, oldConfig: BridgeConfiguration, config: BridgeConfiguration)
    requires config.name !in w.plane.ports
    requires config.name in w.plane.net.links ==> w.plane.net.links[config.name].index != 0
    ensures var links := w.plane.net.links;
            OnUpdate(faults, w, oldConfig, config) == w
            <==> || config.name !in links
                 || (&& NothingToTake(links, oldConfig.egressInterfaces, config.egressInterfaces)
                     && NothingToPut(links, HandleOf(links, config.name),
                                     oldConfig.egressVlanInterfaces, config.egressVlanInterfaces))
  {
    var links := w.plane.net.links;
    if config.name in links {
      var br := HandleOf(links, config.name);
      var first := EgressPlan(oldConfig.egressInterfaces, config.egressInterfaces);
      var second := VlanPlan(oldConfig.egressVlanInterfaces, config.egressVlanInterfaces);
      UnregisteredPlan(faults, br, w.plane, first + second);
      IdleEgressPlanIff(links, br, oldConfig.egressInterfaces, config.egressInterfaces);
      IdleVlanPlanIff(links, br, oldConfig.egressVlanInterfaces, config.egressVlanInterfaces);
      assert (forall a :: a in first + second ==> Idle(links, br, a))
             <==> (forall a :: a in first ==> Idle(links, br, a)) && (forall a :: a in second ==> Idle(links, br, a));
    }
  }

  lemma OnlyAttaches(faults: Faults, br: Handle, p: Plane, was: BridgeConfiguration, now: BridgeConfiguration,
                     name: string)
    requires was.egressInterfaces == [] && was.egressVlanInterfaces == []
    requires now.egressInterfaces == [EgressInterface(name)] && now.egressVlanInterfaces == []
    ensures PerformAll(faults, br, p, UpdatePlan(Some(was), now)) == PerformAttach(faults, br, p, name)
  {
    MissingFromNothing(now.egressInterfaces);
    var plan := UpdatePlan(Some(was), now);
    assert plan == [Attach(name)];
    assert PerformAll(faults, br, p, plan[..0]) == p;
  }

  /**
   For example, a node that is not selected and has a bridge of the configuration's name. Add and delete leave it
   alone; an update that names a free link puts it on the bridge without recording it, and neither the update that
   drops the name nor the deletion of the configuration takes it off again.
   */
  lemma UnselectedNodeLosesInterface(faults: Faults, matches: Matches, w: World, was: BridgeConfiguration,
                                     now: BridgeConfiguration, name: string)
    requires !matches(was.nodeSelector) && now == was.(egressInterfaces := [EgressInterface(name)])
    requires was.egressInterfaces == [] && was.egressVlanInterfaces == []
    requires w.bridges == map[] && w.plane.ports == map[] && !faults(|w.plane.net.log|)
    requires was.name in w.plane.net.links && w.plane.net.links[was.name].index != 0
    requires name in w.plane.net.links && w.plane.net.links[name].master == 0
    ensures OnAdd(faults, matches, w, was) == w && OnDelete(faults, matches, w, was) == w
    ensures var links, after := w.plane.net.links, OnUpdate(faults, w, was, now);
            && after.plane.net.links == links[name := links[name].(master := links[was.name].index)]
            && after.bridges == map[] && after.plane.ports == map[]
            && OnUpdate(faults, after, now, was) == after
            && OnDelete(faults, matches, after, now) == after
  {
    OnlyAttaches(faults, HandleOf(w.plane.net.links, was.name), w.plane, was, now, name);
    UnregisteredUpdateIff(faults, OnUpdate(faults, w, was, now), now, was);
  }

  // ----- A node that no configuration selects -----

  /** An event of configurations that do not select the node, or a port watcher pass. */
  ghost predicate Unselected(matches: Matches, e: Event) {
    match e
    case Added(config) => !matches(config.nodeSelector)
    case Updated(oldConfig, config) => !matches(oldConfig.nodeSelector) && !matches(config.nodeSelector)
    case Deleted(config) => !matches(config.nodeSelector)
    case PortsWatched => true
    case Environment(_, _) => false
  }

  ghost predicate HasMaster(links: map<string, Link>, name: string, link: Link) {
    name in links && links[name] == link && link.master != 0
  }

  lemma ActionLeavesMaster(faults: Faults, br: Handle, p: Plane, a: Action, name: string, link: Link)
    requires br.name !in p.ports && !UsesVlan(a, name) && HasMaster(p.net.links, name, link)
    ensures var q := Perform(faults, br, p, a);
            q.ports == p.ports && HasMaster(q.net.links, name, link)
  {
  }

  lemma {:induction false} PlanLeavesMaster(faults: Faults, br: Handle, p: Plane, plan: seq<Action>, name: string,
                                            link: Link)
    requires br.name !in p.ports && NoVlan(plan, name) && HasMaster(p.net.links, name, link)
    ensures var q := PerformAll(faults, br, p, plan);
            q.ports == p.ports && HasMaster(q.net.links, name, link)
  {
    if plan != [] {
      var front := plan[..|plan| - 1];
      PlanLeavesMaster(faults, br, p, front, name, link);
      ActionLeavesMaster(faults, br, PerformAll(faults, br, p, front), plan[|plan| - 1], name, link);
    }
  }

  lemma StepLeavesMaster(faults: Faults, matches: Matches, names: Names, w: World, e: Event, after: World,
                           name: string, link: Link)
    requires Step(faults, matches, names, w, e, after) && Unselected(matches, e)
    requires w.bridges == map[] && w.plane.ports == map[]
    requires name !in names.vlans && HasMaster(w.plane.net.links, name, link)
    ensures after.bridges == map[] && after.plane.ports == map[] && HasMaster(after.plane.net.links, name, link)
  {
    if e.Updated? && e.config.name in w.plane.net.links {
      UpdateUsesNoVlan(Some(e.oldConfig), e.config, name);
      PlanLeavesMaster(faults, HandleOf(w.plane.net.links, e.config.name), w.plane,
                         UpdatePlan(Some(e.oldConfig), e.config), name, link);
    }
  }

  /**
   On a node that no configuration selects nothing is ever recorded, and whatever fails and whatever the events
   are, a link that has come to have a master keeps it for good (generated VLAN names aside).
   */
  lemma {:induction false} NeverFreed(faults: Faults, matches: Matches, names: Names, worlds: seq<World>,
                                      events: seq<Event>, i: nat, j: nat, name: string)
    requires |worlds| == |events| + 1 && i <= j < |worlds| && name !in names.vlans
    requires worlds[i].bridges == map[] && worlds[i].plane.ports == map[]
    requires forall k :: i <= k < j ==>
               Step(faults, matches, names, worlds[k], events[k], worlds[k + 1]) && Unselected(matches, events[k])
    requires name in worlds[i].plane.net.links && worlds[i].plane.net.links[name].master != 0
    ensures worlds[j].bridges == map[] && worlds[j].plane.ports == map[]
    ensures HasMaster(worlds[j].plane.net.links, name, worlds[i].plane.net.links[name])
    decreases j
  {
    if i < j {
      NeverFreed(faults, matches, names, worlds, events, i, j - 1, name);
      assert Step(faults, matches, names, worlds[j - 1], events[j - 1], worlds[j - 1 + 1]);
      StepLeavesMaster(faults, matches, names, worlds[j - 1], events[j - 1], worlds[j], name,
                         worlds[i].plane.net.links[name]);
    }
  }
}
