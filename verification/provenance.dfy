/**
 Where a bridge came from: a link flagged as created by the daemon is not the daemon's exactly when the
 environment brought it up. Indices are not reused.
 */
module Provenance {
  import opened Configuration
  import opened Netlink
  import opened Management
  import opened Reconcile
  import opened Bridges
  import opened Server
  import opened Ownership
  import opened OpenRuns

  // ----- Links that come up are created by a call in the log -----

  /** Links and logged creations have indices below the next one. */
  ghost predicate Numbered(net: Net) {
    && (forall n :: n in net.links ==> net.links[n].index < net.next)
    && (forall n, i: nat :: Created(net.log, n, i) ==> i < net.next)
  }

  /** One net leads to another by calls: links that are new are created in the log, and creations get fresh indices. */
  ghost predicate Traced(net: Net, after: Net) {
    && net.next <= after.next
    && (forall n :: n in after.links ==>
          Present(net.links, Handle(n, after.links[n].index)) || Created(after.log, n, after.links[n].index))
    && (forall n, i: nat :: Created(net.log, n, i) ==> Created(after.log, n, i))
    && (forall n, i: nat :: Created(after.log, n, i) ==> Created(net.log, n, i) || net.next <= i < after.next)
  }

  lemma TracedTrans(a: Net, b: Net, c: Net)
    requires Traced(a, b) && Traced(b, c)
    ensures Traced(a, c)
  {
    forall n | n in c.links
      ensures Present(a.links, Handle(n, c.links[n].index)) || Created(c.log, n, c.links[n].index)
    {
      if Present(b.links, Handle(n, c.links[n].index)) {
        assert b.links[n].index == c.links[n].index;
      }
    }
  }

  lemma TracedCall(net: Net, after: Net, call: Call)
    requires after.log == net.log + [call] && net.next <= after.next
    requires call.LinkAdd? && call.ok ==> net.next <= call.index < after.next
    requires forall n :: n in after.links ==>
               || (n in net.links && net.links[n].index == after.links[n].index)
               || call == Call.LinkAdd(n, after.links[n].index, true)
    ensures Traced(net, after)
  {
    assert call in after.log && forall c :: c in net.log ==> c in after.log;
    assert forall c :: c in after.log ==> c in net.log || c == call;
  }

  lemma ReleaseIsTraced(faults: Faults, br: Handle, p: Plane, name: string)
    ensures Traced(p.net, PerformRelease(faults, br, p, name).net)
  {
    var q := PerformRelease(faults, br, p, name);
    if q.net != p.net {
      TracedCall(p.net, q.net, q.net.log[|p.net.log|]);
    }
  }

  lemma AttachIsTraced(faults: Faults, br: Handle, p: Plane, name: string)
    ensures Traced(p.net, PerformAttach(faults, br, p, name).net)
  {
    var q := PerformAttach(faults, br, p, name);
    if q.net != p.net {
      TracedCall(p.net, q.net, q.net.log[|p.net.log|]);
    }
  }

  lemma DropIsTraced(faults: Faults, br: Handle, p: Plane, name: string)
    ensures Traced(p.net, PerformDrop(faults, br, p, name).net)
  {
    if PortManaged(p.ports, br.name, name) && name in p.net.links && p.net.links[name].master != 0 {
      var off := p.net.LinkSetNoMaster(faults, name);
      TracedCall(p.net, off, off.log[|p.net.log|]);
      if off.Succeeded() {
        var gone := off.LinkDel(faults, Handle(name, off.links[name].index));
        TracedCall(off, gone, gone.log[|off.log|]);
        TracedTrans(p.net, off, gone);
      }
    }
  }

  lemma EnslaveIsTraced(faults: Faults, br: Handle, p: Plane, name: string)
    requires name in p.net.links
    ensures Traced(p.net, PerformEnslave(faults, br, p, name).net)
  {
    var q := PerformEnslave(faults, br, p, name);
    if q.net != p.net {
      TracedCall(p.net, q.net, q.net.log[|p.net.log|]);
    }
  }

  lemma AddIsTraced(faults: Faults, net: Net, name: string, kind: Kind, parent: nat)
    ensures var added := net.LinkAdd(faults, name, kind, parent);
            && Traced(net, added) && Traced(net, added.LinkSetUp(faults, name))
            && (added.Succeeded() ==> name in added.links)
  {
    var added := net.LinkAdd(faults, name, kind, parent);
    var up := added.LinkSetUp(faults, name);
    TracedCall(net, added, added.log[|net.log|]);
    TracedCall(added, up, up.log[|added.log|]);
    TracedTrans(net, added, up);
  }

  lemma PutIsTraced(faults: Faults, br: Handle, p: Plane, parent: string, name: string, kind: Kind)
    ensures Traced(p.net, PerformPut(faults, br, p, parent, name, kind).net)
  {
    var q := PerformPut(faults, br, p, parent, name, kind);
    if parent in p.net.links {
      if name in p.net.links {
        EnslaveIsTraced(faults, br, p.(ports := SetPort(p.ports, br.name, name, false)), name);
      } else {
        AddIsTraced(faults, p.net, name, kind, p.net.links[parent].index);
        var added := p.net.LinkAdd(faults, name, kind, p.net.links[parent].index);
        if added.Succeeded() {
          var up := added.LinkSetUp(faults, name);
          if up.Succeeded() {
            EnslaveIsTraced(faults, br, Plane(up, SetPort(p.ports, br.name, name, true)), name);
            TracedTrans(p.net, up, q.net);
          }
        }
      }
    }
  }

  lemma {:induction false} PlanIsTraced(faults: Faults, br: Handle, p: Plane, plan: seq<Action>)
    ensures Traced(p.net, PerformAll(faults, br, p, plan).net)
  {
    if plan != [] {
      var front, last := plan[..|plan| - 1], plan[|plan| - 1];
      var q := PerformAll(faults, br, p, front);
      PlanIsTraced(faults, br, p, front);
      match last {
        case Release(name) => ReleaseIsTraced(faults, br, q, name);
        case Attach(name) => AttachIsTraced(faults, br, q, name);
        case DropVlan(v) => DropIsTraced(faults, br, q, VlanInterfaceName(v));
        case PutVlan(v) => PutIsTraced(faults, br, q, v.name, VlanInterfaceName(v), VlanKind(v));
      }
      TracedTrans(p.net, q.net, PerformAll(faults, br, p, plan).net);
    }
  }

  lemma UpdateIsTraced(faults: Faults, p: Plane, oldConfig: Option<BridgeConfiguration>, config: BridgeConfiguration)
    ensures Traced(p.net, AfterUpdate(faults, p, oldConfig, config).net)
  {
    if config.name in p.net.links {
      PlanIsTraced(faults, HandleOf(p.net.links, config.name), p, UpdatePlan(oldConfig, config));
    }
  }

  lemma ConfigureIsTraced(faults: Faults, p: Plane, config: BridgeConfiguration)
    ensures Traced(p.net, AfterConfigure(faults, p, config).net)
  {
    AddIsTraced(faults, p.net, config.name, Bridge, 0);
    var added := p.net.LinkAdd(faults, config.name, Bridge, 0);
    if added.Succeeded() {
      var up := added.LinkSetUp(faults, config.name);
      if up.Succeeded() {
        UpdateIsTraced(faults, Plane(up, p.ports), None, config);
        TracedTrans(p.net, up, AfterConfigure(faults, p, config).net);
      }
    }
  }

  lemma UnconfigureIsTraced(faults: Faults, p: Plane, config: BridgeConfiguration, isManaged: bool)
    ensures Traced(p.net, AfterUnconfigure(faults, p, config, isManaged).net)
  {
    if config.name in p.net.links {
      var br, q := HandleOf(p.net.links, config.name), AfterDrain(faults, p, config);
      PlanIsTraced(faults, br, p, DrainPlan(config));
      var gone := q.net.LinkDel(faults, br);
      TracedCall(q.net, gone, gone.log[|q.net.log|]);
      TracedTrans(p.net, q.net, gone);
    }
  }

  lemma StepIsTraced(faults: Faults, matches: Matches, names: Names, w: World, e: Event, after: World)
    requires Step(faults, matches, names, w, e, after) && !e.Environment?
    ensures Traced(w.plane.net, after.plane.net)
  {
    match e {
      case Added(config) =>
        var t := SetBridge(Tables(w.bridges, w.plane.ports), config.name, config.name !in w.plane.net.links);
        ConfigureIsTraced(faults, Plane(w.plane.net, t.ports), config);
      case Updated(oldConfig, config) => UpdateIsTraced(faults, w.plane, Some(oldConfig), config);
      case Deleted(config) => UnconfigureIsTraced(faults, w.plane, config, BridgeFlag(w.bridges, config.name));
      case PortsWatched =>
    }
  }

  // ----- Runs in which indices are not reused -----

  /** Links that the environment brings up, under a name and index that were not there, get fresh indices. */
  ghost predicate FreshIndices(net: Net, e: Event) {
    e.Environment? ==>
      && net.next <= e.next
      && forall n :: n in e.links ==>
           && e.links[n].index < e.next
           && (Present(net.links, Handle(n, e.links[n].index)) || net.next <= e.links[n].index)
  }

  ghost predicate NumberedRun(faults: Faults, matches: Matches, names: Names, worlds: seq<World>, events: seq<Event>) {
    && OpenRun(faults, matches, names, worlds, events) && Numbered(worlds[0].plane.net)
    && forall i :: 0 <= i < |events| ==> FreshIndices(worlds[i].plane.net, events[i])
  }

  lemma StepKeepsNumbered(faults: Faults, matches: Matches, names: Names, w: World, e: Event, after: World)
    requires OpenStep(faults, matches, names, w, e, after) && FreshIndices(w.plane.net, e) && Numbered(w.plane.net)
    ensures Numbered(after.plane.net)
  {
    var net, net' := w.plane.net, after.plane.net;
    if !e.Environment? {
      StepIsTraced(faults, matches, names, w, e, after);
    }
    forall n | n in net'.links
      ensures net'.links[n].index < net'.next
    {
      if Present(net.links, Handle(n, net'.links[n].index)) {
        assert net.links[n].index < net.next;
      }
    }
  }

  lemma StepSettles(faults: Faults, matches: Matches, names: Names, w: World, e: Event, after: World, h: Handle)
    requires OpenStep(faults, matches, names, w, e, after) && FreshIndices(w.plane.net, e)
    requires h.index < w.plane.net.next
    ensures h.index < after.plane.net.next
    ensures Created(after.plane.net.log, h.name, h.index) <==> Created(w.plane.net.log, h.name, h.index)
  {
    if !e.Environment? {
      StepIsTraced(faults, matches, names, w, e, after);
    }
  }

  lemma {:induction false} NumberedThroughout(faults: Faults, matches: Matches, names: Names, worlds: seq<World>,
                                              events: seq<Event>, i: nat)
    requires NumberedRun(faults, matches, names, worlds, events) && i < |worlds|
    ensures Numbered(worlds[i].plane.net)
  {
    if i > 0 {
      NumberedThroughout(faults, matches, names, worlds, events, i - 1);
      assert OpenStep(faults, matches, names, worlds[i - 1], events[i - 1], worlds[i - 1 + 1]);
      StepKeepsNumbered(faults, matches, names, worlds[i - 1], events[i - 1], worlds[i]);
    }
  }

  /** Once an index is used up, whether the daemon created the link is settled. */
  lemma {:induction false} CreationIsSettled(faults: Faults, matches: Matches, names: Names, worlds: seq<World>,
                                             events: seq<Event>, j: nat, i: nat, h: Handle)
    requires NumberedRun(faults, matches, names, worlds, events) && j <= i < |worlds|
    requires h.index < worlds[j].plane.net.next
    ensures h.index < worlds[i].plane.net.next
    ensures Created(worlds[i].plane.net.log, h.name, h.index) <==> Created(worlds[j].plane.net.log, h.name, h.index)
    decreases i
  {
    if j < i {
      CreationIsSettled(faults, matches, names, worlds, events, j, i - 1, h);
      assert OpenStep(faults, matches, names, worlds[i - 1], events[i - 1], worlds[i - 1 + 1]);
      assert FreshIndices(worlds[i - 1].plane.net, events[i - 1]);
      StepSettles(faults, matches, names, worlds[i - 1], events[i - 1], worlds[i], h);
    }
  }

  /** The link came up in the j-th step and has been there since. */
  ghost predicate CameUp(worlds: seq<World>, j: nat, i: nat, h: Handle) {
    && j < i < |worlds| && !Present(worlds[j].plane.net.links, h)
    && forall k :: j < k <= i ==> Present(worlds[k].plane.net.links, h)
  }

  lemma {:induction false} LastArrival(worlds: seq<World>, m: nat, i: nat, h: Handle) returns (j: nat)
    requires m < i < |worlds|
    requires !Present(worlds[m].plane.net.links, h) && Present(worlds[i].plane.net.links, h)
    ensures CameUp(worlds, j, i, h)
    decreases i
  {
    if !Present(worlds[i - 1].plane.net.links, h) {
      j := i - 1;
    } else {
      j := LastArrival(worlds, m, i - 1, h);
    }
  }

  /** A link is the daemon's exactly if it came up in a step of the daemon. */
  lemma ArrivalDecides(faults: Faults, matches: Matches, names: Names, worlds: seq<World>, events: seq<Event>,
                       j: nat, i: nat, h: Handle)
    requires NumberedRun(faults, matches, names, worlds, events) && CameUp(worlds, j, i, h)
    ensures Created(worlds[i].plane.net.log, h.name, h.index) <==> !events[j].Environment?
  {
    var w, after := worlds[j], worlds[j + 1];
    assert OpenStep(faults, matches, names, w, events[j], after) && FreshIndices(w.plane.net, events[j]);
    assert Present(after.plane.net.links, h);
    NumberedThroughout(faults, matches, names, worlds, events, j);
    NumberedThroughout(faults, matches, names, worlds, events, j + 1);
    if !events[j].Environment? {
      StepIsTraced(faults, matches, names, w, events[j], after);
    }
    CreationIsSettled(faults, matches, names, worlds, events, j + 1, i, h);
  }

  // ----- Flags -----

  lemma FlagNeedsAbsence(faults: Faults, matches: Matches, names: Names, w: World, e: Event, after: World,
                         bridge: string)
    requires OpenStep(faults, matches, names, w, e, after)
    requires BridgeFlag(after.bridges, bridge) && !BridgeFlag(w.bridges, bridge)
    ensures bridge !in w.plane.net.links
  {
  }

  lemma {:induction false} FlaggedWasAbsent(faults: Faults, matches: Matches, names: Names, worlds: seq<World>,
                                            events: seq<Event>, i: nat, bridge: string) returns (m: nat)
    requires OpenRun(faults, matches, names, worlds, events) && i < |worlds| && BridgeFlag(worlds[i].bridges, bridge)
    ensures m < i && bridge !in worlds[m].plane.net.links
  {
    assert i > 0;
    assert OpenStep(faults, matches, names, worlds[i - 1], events[i - 1], worlds[i - 1 + 1]);
    if BridgeFlag(worlds[i - 1].bridges, bridge) {
      m := FlaggedWasAbsent(faults, matches, names, worlds, events, i - 1, bridge);
    } else {
      m := i - 1;
      FlagNeedsAbsence(faults, matches, names, worlds[i - 1], events[i - 1], worlds[i], bridge);
    }
  }

  /** The link came up in a step of the environment and has been there since. */
  ghost predicate BroughtUp(worlds: seq<World>, events: seq<Event>, i: nat, h: Handle)
    requires |worlds| == |events| + 1
  {
    exists j: nat :: CameUp(worlds, j, i, h) && events[j].Environment?
  }

  /** The flag of a bridge that is there is untrue exactly when the environment brought the bridge up. */
  lemma FlagUntrueIff(faults: Faults, matches: Matches, names: Names, worlds: seq<World>, events: seq<Event>,
                      i: nat, bridge: string)
    requires NumberedRun(faults, matches, names, worlds, events) && i < |worlds|
    requires BridgeFlag(worlds[i].bridges, bridge) && bridge in worlds[i].plane.net.links
    ensures var index := worlds[i].plane.net.links[bridge].index;
            !Created(worlds[i].plane.net.log, bridge, index) <==> BroughtUp(worlds, events, i, Handle(bridge, index))
  {
    var h := HandleOf(worlds[i].plane.net.links, bridge);
    var m := FlaggedWasAbsent(faults, matches, names, worlds, events, i, bridge);
    var j := LastArrival(worlds, m, i, h);
    ArrivalDecides(faults, matches, names, worlds, events, j, i, h);
    if k: nat :| CameUp(worlds, k, i, h) && events[k].Environment? {
      ArrivalDecides(faults, matches, names, worlds, events, k, i, h);
    }
  }

  /** The event puts up for deletion a bridge that the environment brought up. */
  ghost predicate Misfires(matches: Matches, worlds: seq<World>, events: seq<Event>, i: nat)
    requires |worlds| == |events| + 1 && i < |events|
  {
    && events[i].Deleted? && matches(events[i].config.nodeSelector)
    && var w, config := worlds[i], events[i].config;
       && PutUpForDeletion(w.plane, config, BridgeFlag(w.bridges, config.name))
       && BroughtUp(worlds, events, i, HandleOf(w.plane.net.links, config.name))
  }

  lemma MisfiresIff(faults: Faults, matches: Matches, names: Names, worlds: seq<World>, events: seq<Event>, i: nat)
    requires NumberedRun(faults, matches, names, worlds, events) && i < |events|
    ensures TellsTruth(matches, worlds[i], events[i]) <==> !Misfires(matches, worlds, events, i)
  {
    if events[i].Deleted? && matches(events[i].config.nodeSelector) {
      var w, config := worlds[i], events[i].config;
      if PutUpForDeletion(w.plane, config, BridgeFlag(w.bridges, config.name)) {
        FlagUntrueIff(faults, matches, names, worlds, events, i, config.name);
      }
    }
  }

  /**
   Told by the events alone: in every open run, all deletions were of own links exactly when no deletion event put up
   a bridge that the environment had brought up.
   */
  lemma DeletesOwnByEventsIff(faults: Faults, matches: Matches, names: Names, worlds: seq<World>, events: seq<Event>,
                              i: nat)
    requires names.egress !! names.vlans
    requires NumberedRun(faults, matches, names, worlds, events) && i < |worlds|
    ensures DeletesOwn(worlds[i].plane.net.log) <==> forall j :: 0 <= j < i ==> !Misfires(matches, worlds, events, j)
  {
    DeletesOwnIff(faults, matches, names, worlds, events, i);
    forall j: nat | j < i
      ensures TellsTruth(matches, worlds[j], events[j]) <==> !Misfires(matches, worlds, events, j)
    {
      MisfiresIff(faults, matches, names, worlds, events, j);
    }
  }
}
