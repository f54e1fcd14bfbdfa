/**
 The egress pass seen at one port, whatever fails: whether it stays recorded, and whether it is on the bridge.
 The VLAN pass likewise, where it removes an interface.
 */
module Records {
  import opened Configuration
  import opened Netlink
  import opened Management
  import opened Reconcile
  import opened Bridges
  import opened ChainExactness

  /** What there is to see of a name: its link, and its record under the bridge. */
  datatype Sight = Sight(link: Option<Link>, recorded: bool, managed: bool)

  function SightOf(br: Handle, p: Plane, name: string): Sight {
    Sight(if name in p.net.links then Some(p.net.links[name]) else None,
          PortRecorded(p.ports, br.name, name), PortManaged(p.ports, br.name, name))
  }

  /** A name that is neither a link nor recorded. */
  const UNKNOWN := Sight(None, false, false)

  // ----- One action -----

  /**
   A port recorded as managed stays recorded exactly when there is no link to free or freeing it fails, and otherwise
   its link is freed, whichever bridge it is on by then.
   */
  lemma ReleaseKeepsIff(faults: Faults, br: Handle, p: Plane, name: string)
    requires PortManaged(p.ports, br.name, name)
    ensures var q, links := Perform(faults, br, p, Release(name)), p.net.links;
            var stays := name !in links || links[name].master == 0 || faults(|p.net.log|);
            && (PortRecorded(q.ports, br.name, name) <==> stays)
            && (PortManaged(q.ports, br.name, name) <==> stays)
            && q.net.links == if stays then links else links[name := links[name].(master := 0)]
  {
  }

  /**
   A port recorded as unmanaged is forgotten, and one that is not recorded stays so.
   Neither asks anything of the kernel.
   */
  lemma ReleaseForgets(faults: Faults, br: Handle, p: Plane, name: string)
    requires !PortManaged(p.ports, br.name, name)
    ensures var q := Perform(faults, br, p, Release(name));
            q.net == p.net && !PortRecorded(q.ports, br.name, name)
  {
  }

  /** A link is taken exactly if it has no master and enslaving it succeeds; only then it is recorded. */
  lemma AttachTakesIff(faults: Faults, br: Handle, p: Plane, name: string)
    requires Present(p.net.links, br) && br.index != 0
    ensures var q, links := Perform(faults, br, p, Attach(name)), p.net.links;
            var taken := name in links && links[name].master == 0 && !faults(|p.net.log|);
            && q.net.links == (if taken then links[name := links[name].(master := br.index)] else links)
            && q.ports == if taken then SetPort(p.ports, br.name, name, true) else p.ports
  {
  }

  /**
   A VLAN interface recorded as managed stays recorded exactly when there is no link to free, or freeing or deleting
   it fails; its link goes otherwise.
   */
  lemma DropKeepsIff(faults: Faults, br: Handle, p: Plane, v: EgressVlanInterface)
    requires PortManaged(p.ports, br.name, VlanInterfaceName(v))
    ensures var name, n := VlanInterfaceName(v), |p.net.log|;
            var q, links := Perform(faults, br, p, DropVlan(v)), p.net.links;
            var stays := name !in links || links[name].master == 0 || faults(n) || faults(n + 1);
            && (PortRecorded(q.ports, br.name, name) <==> stays)
            && (PortManaged(q.ports, br.name, name) <==> stays)
            && (name in q.net.links <==> name in links && stays)
            && (name in q.net.links ==>
                  q.net.links[name] == if faults(n) || links[name].master == 0 then links[name]
                                       else links[name].(master := 0))
  {
  }

  /**
   A VLAN interface that is there already is recorded as unmanaged unless it was recorded before, and moved to the
   bridge unless it is on it or the call fails. Without its parent nothing happens.
   */
  lemma ExistingPutIs(faults: Faults, br: Handle, p: Plane, v: EgressVlanInterface)
    requires br.name in p.ports && Present(p.net.links, br)
    requires v.name in p.net.links ==> VlanInterfaceName(v) in p.net.links
    ensures var name, links, q := VlanInterfaceName(v), p.net.links, Perform(faults, br, p, PutVlan(v));
            if v.name !in links then q == p
            else
              && PortRecorded(q.ports, br.name, name)
              && (PortManaged(q.ports, br.name, name) <==> PortManaged(p.ports, br.name, name))
              && q.net.links == if links[name].master != br.index && !faults(|p.net.log|)
                                then links[name := links[name].(master := br.index)]
                                else links
  {
  }

  // ----- A whole egress pass -----

  /** How many calls have been made when the k-th action of the plan has its turn. */
  function Turn(faults: Faults, br: Handle, p: Plane, plan: seq<Action>, k: nat): nat
    requires k <= |plan|
  {
    |PerformAll(faults, br, p, plan[..k]).net.log|
  }

  /** The k-th action is this one, and the call that is due at its turn does not fail. */
  ghost predicate WorksAt(faults: Faults, br: Handle, p: Plane, plan: seq<Action>, a: Action, k: nat) {
    k < |plan| && plan[k] == a && !faults(Turn(faults, br, p, plan, k))
  }

  ghost predicate SomeTurnWorks(faults: Faults, br: Handle, p: Plane, plan: seq<Action>, a: Action) {
    exists k: nat :: WorksAt(faults, br, p, plan, a, k)
  }

  lemma WorksAtFront(faults: Faults, br: Handle, p: Plane, plan: seq<Action>, a: Action, k: nat)
    requires k + 1 < |plan|
    ensures WorksAt(faults, br, p, plan[..|plan| - 1], a, k) <==> WorksAt(faults, br, p, plan, a, k)
  {
    assert plan[..|plan| - 1][..k] == plan[..k];
  }

  lemma SomeTurnWorksNext(faults: Faults, br: Handle, p: Plane, plan: seq<Action>, a: Action)
    requires plan != []
    ensures var front, last := plan[..|plan| - 1], |plan| - 1;
            SomeTurnWorks(faults, br, p, plan, a)
            <==> SomeTurnWorks(faults, br, p, front, a) || WorksAt(faults, br, p, plan, a, last)
  {
    var front := plan[..|plan| - 1];
    if SomeTurnWorks(faults, br, p, plan, a) {
      var k: nat :| WorksAt(faults, br, p, plan, a, k);
      if k + 1 < |plan| {
        WorksAtFront(faults, br, p, plan, a, k);
      }
    }
    if SomeTurnWorks(faults, br, p, front, a) {
      var k: nat :| WorksAt(faults, br, p, front, a, k);
      WorksAtFront(faults, br, p, plan, a, k);
    }
  }

  /** Only egress interfaces are dealt with. */
  ghost predicate EgressOnly(plan: seq<Action>) {
    forall a :: a in plan ==> a.Release? || a.Attach?
  }

  lemma OtherActionLeaves(faults: Faults, br: Handle, p: Plane, a: Action, name: string)
    requires (a.Release? || a.Attach?) && a != Release(name) && a != Attach(name) && Present(p.net.links, br)
    ensures var q := Perform(faults, br, p, a);
            SightOf(br, q, name) == SightOf(br, p, name) && Present(q.net.links, br) && q.ports.Keys == p.ports.Keys
  {
  }

  /** What a managed port looks like once it has been released, or not. */
  function AfterRelease(was: Sight, works: bool): Sight {
    if was.link.Some? && was.link.value.master != 0 && works
    then Sight(Some(was.link.value.(master := 0)), false, false)
    else was
  }

  lemma ReleaseShows(faults: Faults, br: Handle, p: Plane, was: Sight, works: bool, name: string)
    requires was.managed && Present(p.net.links, br) && SightOf(br, p, name) == AfterRelease(was, works)
    ensures var q := Perform(faults, br, p, Release(name));
            && SightOf(br, q, name) == AfterRelease(was, works || !faults(|p.net.log|))
            && Present(q.net.links, br) && q.ports.Keys == p.ports.Keys
  {
  }

  lemma {:induction false} PlanReleases(faults: Faults, br: Handle, p: Plane, plan: seq<Action>, name: string)
    requires EgressOnly(plan) && Attach(name) !in plan
    requires PortManaged(p.ports, br.name, name) && Present(p.net.links, br)
    ensures var q := PerformAll(faults, br, p, plan);
            && SightOf(br, q, name)
               == AfterRelease(SightOf(br, p, name), SomeTurnWorks(faults, br, p, plan, Release(name)))
            && Present(q.net.links, br) && q.ports.Keys == p.ports.Keys
  {
    if plan != [] {
      var front, last := plan[..|plan| - 1], plan[|plan| - 1];
      assert plan == front + [last];
      PlanReleases(faults, br, p, front, name);
      SomeTurnWorksNext(faults, br, p, plan, Release(name));
      var q := PerformAll(faults, br, p, front);
      if last == Release(name) {
        ReleaseShows(faults, br, q, SightOf(br, p, name), SomeTurnWorks(faults, br, p, front, last), name);
      } else {
        OtherActionLeaves(faults, br, q, last, name);
      }
    }
  }

  /** What a link looks like once it has been attached, or not. */
  function AfterAttach(br: Handle, registered: bool, was: Sight, works: bool): Sight {
    if was.link.Some? && was.link.value.master == 0 && works
    then Sight(Some(was.link.value.(master := br.index)), was.recorded || registered,
               was.managed || (registered && !was.recorded))
    else was
  }

  lemma AttachShows(faults: Faults, br: Handle, p: Plane, was: Sight, works: bool, name: string)
    requires Present(p.net.links, br) && br.index != 0
    requires SightOf(br, p, name) == AfterAttach(br, br.name in p.ports, was, works)
    ensures var q := Perform(faults, br, p, Attach(name));
            && SightOf(br, q, name) == AfterAttach(br, br.name in p.ports, was, works || !faults(|p.net.log|))
            && Present(q.net.links, br) && q.ports.Keys == p.ports.Keys
  {
  }

  lemma {:induction false} PlanAttaches(faults: Faults, br: Handle, p: Plane, plan: seq<Action>, name: string)
    requires EgressOnly(plan) && Release(name) !in plan
    requires Present(p.net.links, br) && br.index != 0
    ensures var q := PerformAll(faults, br, p, plan);
            && SightOf(br, q, name)
               == AfterAttach(br, br.name in p.ports, SightOf(br, p, name),
                              SomeTurnWorks(faults, br, p, plan, Attach(name)))
            && Present(q.net.links, br) && q.ports.Keys == p.ports.Keys
  {
    if plan != [] {
      var front, last := plan[..|plan| - 1], plan[|plan| - 1];
      assert plan == front + [last];
      PlanAttaches(faults, br, p, front, name);
      SomeTurnWorksNext(faults, br, p, plan, Attach(name));
      var q := PerformAll(faults, br, p, front);
      if last == Attach(name) {
        AttachShows(faults, br, q, SightOf(br, p, name), SomeTurnWorks(faults, br, p, front, last), name);
      } else {
        OtherActionLeaves(faults, br, q, last, name);
      }
    }
  }

  lemma {:induction false} PlanLeaves(faults: Faults, br: Handle, p: Plane, plan: seq<Action>, name: string)
    requires EgressOnly(plan) && Release(name) !in plan && Attach(name) !in plan && Present(p.net.links, br)
    ensures var q := PerformAll(faults, br, p, plan);
            SightOf(br, q, name) == SightOf(br, p, name) && Present(q.net.links, br) && q.ports.Keys == p.ports.Keys
  {
    if plan != [] {
      var front, last := plan[..|plan| - 1], plan[|plan| - 1];
      assert plan == front + [last];
      PlanLeaves(faults, br, p, front, name);
      OtherActionLeaves(faults, br, PerformAll(faults, br, p, front), last, name);
    }
  }

  /**
   Whatever fails, a managed port that an egress pass does not attach stays recorded, and keeps its link, exactly
   unless the pass releases it, it has a master, and the call succeeds at one of its turns. It is then freed. The pass
   releases what goes before it attaches what comes.
   */
  lemma ReleasedInPassIff(faults: Faults, br: Handle, p: Plane, oldList: seq<EgressInterface>,
                          newList: seq<EgressInterface>, name: string)
    requires PortManaged(p.ports, br.name, name) && Present(p.net.links, br)
    requires name in EgressNamesOf(newList) ==> name in EgressNamesOf(oldList)
    ensures var releases, links := Releases(Missing(oldList, newList)), p.net.links;
            var q := PerformAll(faults, br, p, EgressPlan(oldList, newList));
            var freed := && name in links && links[name].master != 0
                         && SomeTurnWorks(faults, br, p, releases, Release(name));
            && (Release(name) in releases <==> name in EgressNamesOf(oldList) && name !in EgressNamesOf(newList))
            && (PortRecorded(q.ports, br.name, name) <==> !freed)
            && (PortManaged(q.ports, br.name, name) <==> !freed)
            && (name in q.net.links <==> name in links)
            && (name in links ==> q.net.links[name] == if freed then links[name].(master := 0) else links[name])
  {
    var releases, attaches := Releases(Missing(oldList, newList)), Attaches(Missing(newList, oldList));
    MissingNames(oldList, newList);
    MissingNames(newList, oldList);
    InPlanIff(Missing(oldList, newList), name);
    InPlanIff(Missing(newList, oldList), name);
    PerformConcat(faults, br, p, releases, attaches);
    PlanReleases(faults, br, p, releases, name);
    PlanLeaves(faults, br, PerformAll(faults, br, p, releases), attaches, name);
  }

  /**
   Whatever fails, a link that an egress pass does not release comes to be on the bridge exactly if the pass attaches
   it, it has no master, and the call succeeds at one of its turns. It is then recorded as managed, unless it was
   recorded before.
   */
  lemma AttachedInPassIff(faults: Faults, br: Handle, p: Plane, oldList: seq<EgressInterface>,
                          newList: seq<EgressInterface>, name: string)
    requires br.name in p.ports && Present(p.net.links, br) && br.index != 0
    requires name in EgressNamesOf(oldList) ==> name in EgressNamesOf(newList)
    ensures var plan, links := EgressPlan(oldList, newList), p.net.links;
            var q := PerformAll(faults, br, p, plan);
            var taken := name in links && links[name].master == 0 && SomeTurnWorks(faults, br, p, plan, Attach(name));
            && (Attach(name) in plan <==> name in EgressNamesOf(newList) && name !in EgressNamesOf(oldList))
            && (name in q.net.links <==> name in links)
            && (name in links ==> q.net.links[name] == if taken then links[name].(master := br.index) else links[name])
            && (PortRecorded(q.ports, br.name, name) <==> PortRecorded(p.ports, br.name, name) || taken)
            && (PortManaged(q.ports, br.name, name)
                <==> PortManaged(p.ports, br.name, name) || (taken && !PortRecorded(p.ports, br.name, name)))
  {
    EgressPlanIs(oldList, newList, name);
    PlanAttaches(faults, br, p, EgressPlan(oldList, newList), name);
  }

  // ----- A whole update -----

  lemma VlanActionLeavesRecord(faults: Faults, br: Handle, p: Plane, a: Action, name: string)
    requires (a.DropVlan? || a.PutVlan?) && !UsesVlan(a, name)
    ensures var ports := Perform(faults, br, p, a).ports;
            && (PortRecorded(ports, br.name, name) <==> PortRecorded(p.ports, br.name, name))
            && (PortManaged(ports, br.name, name) <==> PortManaged(p.ports, br.name, name))
  {
  }

  lemma {:induction false} VlanPlanLeavesRecord(faults: Faults, br: Handle, p: Plane, plan: seq<Action>, name: string)
    requires NoVlan(plan, name) && forall a :: a in plan ==> a.DropVlan? || a.PutVlan?
    ensures var ports := PerformAll(faults, br, p, plan).ports;
            && (PortRecorded(ports, br.name, name) <==> PortRecorded(p.ports, br.name, name))
            && (PortManaged(ports, br.name, name) <==> PortManaged(p.ports, br.name, name))
  {
    if plan != [] {
      var front, last := plan[..|plan| - 1], plan[|plan| - 1];
      assert plan == front + [last];
      VlanPlanLeavesRecord(faults, br, p, front, name);
      VlanActionLeavesRecord(faults, br, PerformAll(faults, br, p, front), last, name);
    }
  }

  /**
   The same for a whole update: a managed port it does not attach stays recorded exactly unless it is freed. Egress
   interfaces are released before anything else is done.
   */
  lemma KeptByUpdateIff(faults: Faults, p: Plane, oldConfig: BridgeConfiguration, config: BridgeConfiguration,
                        name: string)
    requires config.name in p.net.links && PortManaged(p.ports, config.name, name)
    requires name in EgressNamesOf(config.egressInterfaces) ==> name in EgressNamesOf(oldConfig.egressInterfaces)
    requires name !in VlanNamesOf(oldConfig.egressVlanInterfaces) && name !in VlanNamesOf(config.egressVlanInterfaces)
    ensures var br, links := HandleOf(p.net.links, config.name), p.net.links;
            var releases := Releases(Missing(oldConfig.egressInterfaces, config.egressInterfaces));
            var after := AfterUpdate(faults, p, Some(oldConfig), config);
            var freed := && name in links && links[name].master != 0
                         && SomeTurnWorks(faults, br, p, releases, Release(name));
            && (PortRecorded(after.ports, config.name, name) <==> !freed)
            && (PortManaged(after.ports, config.name, name) <==> !freed)
  {
    var br := HandleOf(p.net.links, config.name);
    var egress := EgressPlan(oldConfig.egressInterfaces, config.egressInterfaces);
    var vlans := VlanPlan(oldConfig.egressVlanInterfaces, config.egressVlanInterfaces);
    PerformConcat(faults, br, p, egress, vlans);
    ReleasedInPassIff(faults, br, p, oldConfig.egressInterfaces, config.egressInterfaces, name);
    UpdateUsesNoVlan(Some(oldConfig), config, name);
    assert NoVlan(vlans, name) by {
      assert forall a :: a in vlans ==> a in egress + vlans;
    }
    VlanPlanLeavesRecord(faults, br, PerformAll(faults, br, p, egress), vlans, name);
  }
}
