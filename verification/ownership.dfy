/**
 Whole runs of the daemon: event handlers, port watcher passes and whatever else happens on the node,
 in any order, with any mutating call failing. The daemon never deletes a link it did not create.
 */
module Ownership {
  import opened Configuration
  import opened Netlink
  import opened Management
  import opened PortWatch
  import opened Reconcile
  import opened Bridges
  import opened Server

  /** The names configurations may use for bridges, egress interfaces and generated VLAN interfaces. */
  datatype Names = Names(bridges: set<string>, egress: set<string>, vlans: set<string>)

  datatype Event =
    | Added(config: BridgeConfiguration)
    | Updated(oldConfig: BridgeConfiguration, config: BridgeConfiguration)
    | Deleted(config: BridgeConfiguration)
    | PortsWatched
    | Environment(links: map<string, Link>, next: nat)

  ghost predicate Uses(names: Names, config: BridgeConfiguration) {
    && config.name in names.bridges
    && (forall e :: e in config.egressInterfaces ==> e.name in names.egress)
    && (forall v :: v in config.egressVlanInterfaces ==> VlanInterfaceName(v) in names.vlans)
  }

  /** The environment may do anything to the links except bring up new ones under protected names. */
  ghost predicate Allowed(names: Names, was: map<string, Link>, now: map<string, Link>) {
    forall n :: n in now && n in names.bridges + names.vlans ==> n in was && was[n].index == now[n].index
  }

  ghost predicate Step(faults: Faults, matches: Matches, names: Names, w: World, e: Event, after: World) {
    match e
    case Added(config) => Uses(names, config) && after == OnAdd(faults, matches, w, config)
    case Updated(oldConfig, config) =>
      Uses(names, oldConfig) && Uses(names, config) && after == OnUpdate(faults, w, oldConfig, config)
    case Deleted(config) => Uses(names, config) && after == OnDelete(faults, matches, w, config)
    case PortsWatched => LookupsSucceed(w.plane.net.links, w.plane.ports) && after == OnPortWatch(w)
    case Environment(links, next) =>
      Allowed(names, w.plane.net.links, links)
      && after == w.(plane := w.plane.(net := w.plane.net.(links := links, next := next)))
  }

  ghost predicate Run(faults: Faults, matches: Matches, names: Names, worlds: seq<World>, events: seq<Event>) {
    && |worlds| == |events| + 1
    && worlds[0].bridges == map[] && worlds[0].plane.ports == map[] && worlds[0].plane.net.log == []
    && forall i :: 0 <= i < |events| ==> Step(faults, matches, names, worlds[i], events[i], worlds[i + 1])
  }

  /** The daemon created the link of this name and index. */
  ghost predicate Created(log: seq<Call>, name: string, index: nat) {
    Call.LinkAdd(name, index, true) in log
  }

  /** Every deletion asked for, successful or not, is of a link the daemon had created before. */
  ghost predicate DeletesOwn(log: seq<Call>) {
    forall k :: 0 <= k < |log| && log[k].LinkDel? ==> Created(log[..k], log[k].name, log[k].index)
  }

  /** If there is a link of this name, the daemon created it. */
  ghost predicate Own(net: Net, name: string) {
    name in net.links ==> Created(net.log, name, net.links[name].index)
  }

  // ----- What single calls keep -----

  /** One net leads to another by calls that delete only own links and create links only as the log says. */
  ghost predicate Proper(net: Net, after: Net) {
    && net.log <= after.log
    && (DeletesOwn(net.log) ==> DeletesOwn(after.log))
    && (forall n :: Own(net, n) ==> Own(after, n))
  }

  lemma ProperCall(net: Net, after: Net, call: Call)
    requires after.log == net.log + [call]
    requires call.LinkDel? ==> Created(net.log, call.name, call.index)
    requires forall n :: n in after.links ==>
               || (n in net.links && net.links[n].index == after.links[n].index)
               || call == Call.LinkAdd(n, after.links[n].index, true)
    ensures Proper(net, after)
  {
    if DeletesOwn(net.log) {
      forall k | 0 <= k < |after.log| && after.log[k].LinkDel?
        ensures Created(after.log[..k], after.log[k].name, after.log[k].index)
      {
        assert after.log[..k] == net.log[..k];
        if k == |net.log| {
          assert net.log[..k] == net.log;
        }
      }
    }
  }

  lemma ProperTrans(a: Net, b: Net, c: Net)
    requires Proper(a, b) && Proper(b, c)
    ensures Proper(a, c)
  {
  }

  /** Recorded as managed means created by the daemon, for VLAN interfaces. */
  ghost predicate OwnVlans(p: Plane, vlans: set<string>) {
    forall b, n :: PortManaged(p.ports, b, n) && n in vlans ==> Own(p.net, n)
  }

  lemma ProperKeepsVlans(p: Plane, q: Plane, vlans: set<string>)
    requires Proper(p.net, q.net) && OwnVlans(p, vlans)
    requires forall b, n :: PortManaged(q.ports, b, n) && n in vlans ==> PortManaged(p.ports, b, n) || Own(q.net, n)
    ensures OwnVlans(q, vlans)
  {
  }

  // ----- What single actions keep -----

  lemma ReleaseIsProper(faults: Faults, br: Handle, p: Plane, name: string, vlans: set<string>)
    requires OwnVlans(p, vlans)
    ensures var q := PerformRelease(faults, br, p, name);
            Proper(p.net, q.net) && OwnVlans(q, vlans)
  {
    var q := PerformRelease(faults, br, p, name);
    if q.net != p.net {
      ProperCall(p.net, q.net, q.net.log[|p.net.log|]);
    }
    ProperKeepsVlans(p, q, vlans);
  }

  lemma AttachIsProper(faults: Faults, br: Handle, p: Plane, name: string, vlans: set<string>)
    requires OwnVlans(p, vlans) && name !in vlans
    ensures var q := PerformAttach(faults, br, p, name);
            Proper(p.net, q.net) && OwnVlans(q, vlans)
  {
    var q := PerformAttach(faults, br, p, name);
    if q.net != p.net {
      ProperCall(p.net, q.net, q.net.log[|p.net.log|]);
    }
    ProperKeepsVlans(p, q, vlans);
  }

  lemma DropIsProper(faults: Faults, br: Handle, p: Plane, name: string, vlans: set<string>)
    requires OwnVlans(p, vlans) && name in vlans
    ensures var q := PerformDrop(faults, br, p, name);
            Proper(p.net, q.net) && OwnVlans(q, vlans)
  {
    var q := PerformDrop(faults, br, p, name);
    if PortManaged(p.ports, br.name, name) && name in p.net.links && p.net.links[name].master != 0 {
      assert Own(p.net, name);
      var off := p.net.LinkSetNoMaster(faults, name);
      ProperCall(p.net, off, off.log[|p.net.log|]);
      if off.Succeeded() {
        assert Own(off, name);
        var gone := off.LinkDel(faults, Handle(name, off.links[name].index));
        ProperCall(off, gone, gone.log[|off.log|]);
        ProperTrans(p.net, off, gone);
      }
    }
    ProperKeepsVlans(p, q, vlans);
  }

  lemma EnslaveIsProper(faults: Faults, br: Handle, p: Plane, name: string)
    requires name in p.net.links
    ensures var q := PerformEnslave(faults, br, p, name);
            Proper(p.net, q.net) && q.ports == p.ports
  {
    var q := PerformEnslave(faults, br, p, name);
    if q.net != p.net {
      ProperCall(p.net, q.net, q.net.log[|p.net.log|]);
    }
  }

  lemma AddIsProper(faults: Faults, net: Net, name: string, kind: Kind, parent: nat)
    ensures var added := net.LinkAdd(faults, name, kind, parent);
            && Proper(net, added) && (added.Succeeded() ==> name in added.links && Own(added, name))
            && Proper(added, added.LinkSetUp(faults, name)) && Proper(net, added.LinkSetUp(faults, name))
  {
    var added := net.LinkAdd(faults, name, kind, parent);
    var up := added.LinkSetUp(faults, name);
    ProperCall(net, added, added.log[|net.log|]);
    ProperCall(added, up, up.log[|added.log|]);
    ProperTrans(net, added, up);
    if added.Succeeded() {
      assert added.log[|net.log|] == Call.LinkAdd(name, net.next, true);
    }
  }

  lemma PutIsProper(faults: Faults, br: Handle, p: Plane, parent: string, name: string, kind: Kind, vlans: set<string>)
    requires OwnVlans(p, vlans)
    ensures var q := PerformPut(faults, br, p, parent, name, kind);
            Proper(p.net, q.net) && OwnVlans(q, vlans)
  {
    var q := PerformPut(faults, br, p, parent, name, kind);
    if parent in p.net.links {
      if name in p.net.links {
        EnslaveIsProper(faults, br, p.(ports := SetPort(p.ports, br.name, name, false)), name);
      } else {
        AddIsProper(faults, p.net, name, kind, p.net.links[parent].index);
        var added := p.net.LinkAdd(faults, name, kind, p.net.links[parent].index);
        if added.Succeeded() {
          var up := added.LinkSetUp(faults, name);
          if up.Succeeded() {
            EnslaveIsProper(faults, br, Plane(up, SetPort(p.ports, br.name, name, true)), name);
            ProperTrans(p.net, up, q.net);
            assert Own(q.net, name);
          }
        }
      }
    }
    ProperKeepsVlans(p, q, vlans);
  }

  // ----- What plans and handlers keep -----

  ghost predicate PlanUses(names: Names, plan: seq<Action>) {
    forall k :: 0 <= k < |plan| ==>
      match plan[k]
      case Release(_) => true
      case Attach(name) => name in names.egress
      case DropVlan(v) => VlanInterfaceName(v) in names.vlans
      case PutVlan(_) => true
  }

  lemma {:induction false} PlanIsProper(faults: Faults, names: Names, br: Handle, p: Plane, plan: seq<Action>)
    requires names.egress !! names.vlans && PlanUses(names, plan)
    requires OwnVlans(p, names.vlans)
    ensures var q := PerformAll(faults, br, p, plan);
            Proper(p.net, q.net) && OwnVlans(q, names.vlans) && q.ports.Keys == p.ports.Keys
  {
    if plan != [] {
      var front, last := plan[..|plan| - 1], plan[|plan| - 1];
      var q := PerformAll(faults, br, p, front);
      PlanIsProper(faults, names, br, p, front);
      match last {
        case Release(name) => ReleaseIsProper(faults, br, q, name, names.vlans);
        case Attach(name) => AttachIsProper(faults, br, q, name, names.vlans);
        case DropVlan(v) => DropIsProper(faults, br, q, VlanInterfaceName(v), names.vlans);
        case PutVlan(v) => PutIsProper(faults, br, q, v.name, VlanInterfaceName(v), VlanKind(v), names.vlans);
      }
      ProperTrans(p.net, q.net, PerformAll(faults, br, p, plan).net);
    }
  }

  lemma PlanUsesNames(names: Names, es: seq<EgressInterface>, es': seq<EgressInterface>,
                      vs: seq<EgressVlanInterface>, vs': seq<EgressVlanInterface>)
    requires forall e :: e in es' ==> e.name in names.egress
    requires forall v :: v in vs ==> VlanInterfaceName(v) in names.vlans
    ensures PlanUses(names, EgressPlan(es, es') + VlanPlan(vs, vs'))
  {
    forall e | e in Missing(es', es)
      ensures e.name in names.egress
    {
      MissingIff(es', es, e);
    }
    forall v | v in Missing(vs, vs')
      ensures VlanInterfaceName(v) in names.vlans
    {
      MissingIff(vs, vs', v);
    }
  }

  lemma UpdateIsProper(faults: Faults, names: Names, p: Plane, oldConfig: Option<BridgeConfiguration>,
                       config: BridgeConfiguration)
    requires names.egress !! names.vlans && OwnVlans(p, names.vlans)
    requires Uses(names, config) && (oldConfig.Some? ==> Uses(names, oldConfig.value))
    ensures var q := AfterUpdate(faults, p, oldConfig, config);
            Proper(p.net, q.net) && OwnVlans(q, names.vlans) && q.ports.Keys == p.ports.Keys
  {
    if config.name in p.net.links {
      PlanUsesNames(names, EgressOf(oldConfig), config.egressInterfaces, VlansOf(oldConfig),
                    config.egressVlanInterfaces);
      PlanIsProper(faults, names, HandleOf(p.net.links, config.name), p, UpdatePlan(oldConfig, config));
    }
  }

  lemma ConfigureIsProper(faults: Faults, names: Names, p: Plane, config: BridgeConfiguration)
    requires names.egress !! names.vlans && OwnVlans(p, names.vlans) && Uses(names, config)
    ensures var q := AfterConfigure(faults, p, config);
            Proper(p.net, q.net) && OwnVlans(q, names.vlans) && q.ports.Keys == p.ports.Keys
  {
    AddIsProper(faults, p.net, config.name, Bridge, 0);
    var added := p.net.LinkAdd(faults, config.name, Bridge, 0);
    ProperKeepsVlans(p, p.(net := added), names.vlans);
    if added.Succeeded() {
      var up := added.LinkSetUp(faults, config.name);
      ProperKeepsVlans(p, p.(net := up), names.vlans);
      if up.Succeeded() {
        UpdateIsProper(faults, names, Plane(up, p.ports), None, config);
        ProperTrans(p.net, up, AfterConfigure(faults, p, config).net);
      }
    }
  }

  lemma UnconfigureIsProper(faults: Faults, names: Names, p: Plane, config: BridgeConfiguration, isManaged: bool)
    requires names.egress !! names.vlans && OwnVlans(p, names.vlans) && Uses(names, config)
    requires isManaged ==> Own(p.net, config.name)
    ensures var q := AfterUnconfigure(faults, p, config, isManaged);
            Proper(p.net, q.net) && OwnVlans(q, names.vlans) && q.ports.Keys == p.ports.Keys
  {
    if config.name in p.net.links {
      var br, q := HandleOf(p.net.links, config.name), AfterDrain(faults, p, config);
      PlanUsesNames(names, config.egressInterfaces, [], config.egressVlanInterfaces, []);
      PlanIsProper(faults, names, br, p, DrainPlan(config));
      var gone := q.net.LinkDel(faults, br);
      if isManaged {
        assert Created(q.net.log, br.name, br.index);
        ProperCall(q.net, gone, gone.log[|q.net.log|]);
        ProperTrans(p.net, q.net, gone);
        ProperKeepsVlans(q, q.(net := gone), names.vlans);
      }
    }
  }

  // ----- Whole runs -----

  /** What holds after every step. */
  ghost predicate Inv(names: Names, w: World) {
    && Registered(Tables(w.bridges, w.plane.ports))
    && w.bridges.Keys <= names.bridges
    && DeletesOwn(w.plane.net.log)
    && (forall b :: BridgeFlag(w.bridges, b) ==> Own(w.plane.net, b))
    && OwnVlans(w.plane, names.vlans)
  }

  lemma AddKeepsInv(faults: Faults, matches: Matches, names: Names, w: World, config: BridgeConfiguration)
    requires names.egress !! names.vlans && Inv(names, w) && Uses(names, config)
    ensures Inv(names, OnAdd(faults, matches, w, config))
  {
    if matches(config.nodeSelector) {
      var t := SetBridge(Tables(w.bridges, w.plane.ports), config.name, config.name !in w.plane.net.links);
      var p := Plane(w.plane.net, t.ports);
      assert forall b, n :: PortManaged(t.ports, b, n) ==> PortManaged(w.plane.ports, b, n);
      ConfigureIsProper(faults, names, p, config);
    }
  }

  lemma UpdateKeepsInv(faults: Faults, names: Names, w: World, oldConfig: BridgeConfiguration,
                       config: BridgeConfiguration)
    requires names.egress !! names.vlans && Inv(names, w) && Uses(names, oldConfig) && Uses(names, config)
    ensures Inv(names, OnUpdate(faults, w, oldConfig, config))
  {
    UpdateIsProper(faults, names, w.plane, Some(oldConfig), config);
  }

  lemma DeleteKeepsInv(faults: Faults, matches: Matches, names: Names, w: World, config: BridgeConfiguration)
    requires names.egress !! names.vlans && Inv(names, w) && Uses(names, config)
    ensures Inv(names, OnDelete(faults, matches, w, config))
  {
    if matches(config.nodeSelector) {
      var managed := BridgeFlag(w.bridges, config.name);
      UnconfigureIsProper(faults, names, w.plane, config, managed);
      var q := AfterUnconfigure(faults, w.plane, config, managed);
      var after := OnDelete(faults, matches, w, config);
      assert forall b, n :: PortManaged(after.plane.ports, b, n) ==> PortManaged(q.ports, b, n);
      assert forall b :: BridgeFlag(after.bridges, b) ==> BridgeFlag(w.bridges, b);
    }
  }

  lemma WatchKeepsInv(names: Names, w: World)
    requires Inv(names, w) && forall b :: b in w.plane.ports ==> b in w.plane.net.links
    ensures Inv(names, OnPortWatch(w))
  {
    var mirror := Mirror(w.plane.net.links, w.plane.ports);
    forall b, n | PortManaged(mirror, b, n)
      ensures PortManaged(w.plane.ports, b, n)
    {
      assert mirror[b][n] == (n in w.plane.ports[b] && w.plane.ports[b][n]);
    }
  }

  lemma EnvironmentKeepsInv(names: Names, w: World, links: map<string, Link>, next: nat)
    requires Inv(names, w) && Allowed(names, w.plane.net.links, links)
    ensures Inv(names, w.(plane := w.plane.(net := w.plane.net.(links := links, next := next))))
  {
    var net := w.plane.net.(links := links, next := next);
    forall n | n in names.bridges + names.vlans && Own(w.plane.net, n)
      ensures Own(net, n)
    {
    }
    forall b | BridgeFlag(w.bridges, b)
      ensures Own(net, b)
    {
      assert b in names.bridges;
    }
  }

  lemma {:induction false} RunKeepsInv(faults: Faults, matches: Matches, names: Names, worlds: seq<World>,
                                       events: seq<Event>, i: nat)
    requires names.egress !! names.vlans
    requires Run(faults, matches, names, worlds, events) && i < |worlds|
    ensures Inv(names, worlds[i])
  {
    if i > 0 {
      RunKeepsInv(faults, matches, names, worlds, events, i - 1);
      var w := worlds[i - 1];
      assert Step(faults, matches, names, w, events[i - 1], worlds[i - 1 + 1]);
      match events[i - 1] {
        case Added(config) => AddKeepsInv(faults, matches, names, w, config);
        case Updated(oldConfig, config) => UpdateKeepsInv(faults, names, w, oldConfig, config);
        case Deleted(config) => DeleteKeepsInv(faults, matches, names, w, config);
        case PortsWatched => WatchKeepsInv(names, w);
        case Environment(links, next) => EnvironmentKeepsInv(names, w, links, next);
      }
    }
  }

  /**
   In every run, every link the daemon asks the kernel to delete is one that it
   created itself, under that name and index.
   */
  lemma DeletesOnlyOwnLinks(faults: Faults, matches: Matches, names: Names, worlds: seq<World>, events: seq<Event>,
                            i: nat, k: nat)
    requires names.egress !! names.vlans
    requires Run(faults, matches, names, worlds, events) && i < |worlds|
    requires k < |worlds[i].plane.net.log| && worlds[i].plane.net.log[k].LinkDel?
    ensures var log := worlds[i].plane.net.log;
            exists j :: 0 <= j < k && log[j] == Call.LinkAdd(log[k].name, log[k].index, true)
  {
    RunKeepsInv(faults, matches, names, worlds, events, i);
    var log := worlds[i].plane.net.log;
    assert Created(log[..k], log[k].name, log[k].index);
    var j :| 0 <= j < k && log[..k][j] == Call.LinkAdd(log[k].name, log[k].index, true);
    assert log[j] == log[..k][j];
  }
}
