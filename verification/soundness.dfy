/**
 A port table is sound when every recorded port is a link enslaved to its bridge. The egress pass keeps
 it sound whatever fails; single steps of the VLAN pass do so only under conditions that are stated here exactly.
 */
module Soundness {
  import opened Configuration
  import opened Netlink
  import opened Management
  import opened PortWatch
  import opened Reconcile

  ghost predicate EnslavedTo(links: map<string, Link>, b: string, n: string) {
    b in links && n in links && links[n].master == links[b].index
  }

  ghost predicate Sound(p: Plane) {
    forall b, n :: PortRecorded(p.ports, b, n) ==> EnslavedTo(p.net.links, b, n)
  }

  /** What the egress pass may do in the kernel: enslave free links and free ports it had recorded as managed. */
  ghost predicate Careful(call: Call, bridge: string, ports: PortTable) {
    match call
    case LinkSetMaster(_, from, _, _) => from == 0
    case LinkSetNoMaster(name, _, _) => PortManaged(ports, bridge, name)
    case _ => false
  }

  ghost predicate CarefulSince(start: Plane, br: Handle, log: seq<Call>) {
    && |start.net.log| <= |log|
    && forall k :: |start.net.log| <= k < |log| ==> Careful(log[k], br.name, start.ports)
  }

  /** The state of an egress pass begun in `start`. */
  ghost predicate Going(start: Plane, br: Handle, p: Plane) {
    && Sound(p) && KernelIndices(p.net.links) && Present(p.net.links, br)
    && p.ports.Keys == start.ports.Keys
    && (forall b :: b in start.ports && b != br.name ==> p.ports[b] == start.ports[b])
    && CarefulSince(start, br, p.net.log)
  }

  ghost predicate NothingNewlyManaged(start: Plane, br: Handle, p: Plane) {
    forall n :: PortManaged(p.ports, br.name, n) ==> PortManaged(start.ports, br.name, n)
  }

  lemma ForgettingIsSound(p: Plane, bridge: string, name: string)
    requires Sound(p)
    ensures Sound(Plane(p.net, RemovePort(p.ports, bridge, name)))
  {
    var after := RemovePort(p.ports, bridge, name);
    assert forall b, n :: PortRecorded(after, b, n) ==> PortRecorded(p.ports, b, n);
  }

  lemma ReleaseGoesOn(faults: Faults, start: Plane, br: Handle, p: Plane, name: string)
    requires Going(start, br, p) && NothingNewlyManaged(start, br, p)
    ensures var q := PerformRelease(faults, br, p, name);
            Going(start, br, q) && NothingNewlyManaged(start, br, q)
  {
    ForgettingIsSound(p, br.name, name);
    var q := PerformRelease(faults, br, p, name);
    if PortManaged(p.ports, br.name, name) {
      assert PortRecorded(p.ports, br.name, name);
      assert EnslavedTo(p.net.links, br.name, name);
      forall b, n | PortRecorded(q.ports, b, n)
        ensures EnslavedTo(q.net.links, b, n)
      {
        assert PortRecorded(p.ports, b, n);
        assert EnslavedTo(p.net.links, b, n);
      }
    }
  }

  lemma AttachGoesOn(faults: Faults, start: Plane, br: Handle, p: Plane, name: string)
    requires Going(start, br, p)
    ensures Going(start, br, PerformAttach(faults, br, p, name))
  {
    var q := PerformAttach(faults, br, p, name);
    forall b, n | PortRecorded(q.ports, b, n)
      ensures EnslavedTo(q.net.links, b, n)
    {
      if PortRecorded(p.ports, b, n) {
        assert EnslavedTo(p.net.links, b, n);
      }
    }
  }

  lemma {:induction false} ReleasesGoOn(faults: Faults, start: Plane, br: Handle, vs: seq<EgressInterface>)
    requires Going(start, br, start)
    ensures var q := PerformAll(faults, br, start, Releases(vs));
            Going(start, br, q) && NothingNewlyManaged(start, br, q)
  {
    if vs != [] {
      var front := vs[..|vs| - 1];
      assert Releases(vs)[..|vs| - 1] == Releases(front);
      ReleasesGoOn(faults, start, br, front);
      ReleaseGoesOn(faults, start, br, PerformAll(faults, br, start, Releases(front)), vs[|vs| - 1].name);
    }
  }

  lemma {:induction false} AttachesGoOn(faults: Faults, start: Plane, br: Handle, p: Plane, vs: seq<EgressInterface>)
    requires Going(start, br, p)
    ensures Going(start, br, PerformAll(faults, br, p, Attaches(vs)))
  {
    if vs != [] {
      var front := vs[..|vs| - 1];
      assert Attaches(vs)[..|vs| - 1] == Attaches(front);
      AttachesGoOn(faults, start, br, p, front);
      AttachGoesOn(faults, start, br, PerformAll(faults, br, p, Attaches(front)), vs[|vs| - 1].name);
    }
  }

  /**
   Whichever calls fail, the egress pass keeps the table sound, changes only its own bridge's ports,
   enslaves only links without a master and frees only ports recorded as managed under its bridge.
   */
  lemma EgressPassKeepsSound(faults: Faults, br: Handle, p: Plane, oldList: seq<EgressInterface>,
                             newList: seq<EgressInterface>)
    requires Sound(p) && KernelIndices(p.net.links) && Present(p.net.links, br)
    ensures var q := PerformAll(faults, br, p, EgressPlan(oldList, newList));
            && Sound(q) && KernelIndices(q.net.links)
            && q.ports.Keys == p.ports.Keys
            && (forall b :: b in p.ports && b != br.name ==> q.ports[b] == p.ports[b])
            && CarefulSince(p, br, q.net.log)
  {
    var toRemove, toAdd := Missing(oldList, newList), Missing(newList, oldList);
    PerformConcat(faults, br, p, Releases(toRemove), Attaches(toAdd));
    ReleasesGoOn(faults, p, br, toRemove);
    AttachesGoOn(faults, p, br, PerformAll(faults, br, p, Releases(toRemove)), toAdd);
  }

  // ----- The VLAN pass records before it enslaves, and forgets after it deletes -----

  /** Adding a VLAN interface keeps the table sound under every fault exactly when it enslaves nothing. */
  lemma PutAlwaysSoundIff(br: Handle, p: Plane, parent: string, name: string, kind: Kind)
    requires Sound(p) && KernelIndices(p.net.links) && Present(p.net.links, br) && br.name in p.ports
    ensures (forall faults: Faults :: Sound(PerformPut(faults, br, p, parent, name, kind)))
            <==> parent !in p.net.links || EnslavedTo(p.net.links, br.name, name)
  {
    if parent in p.net.links && !EnslavedTo(p.net.links, br.name, name) {
      var attachFails: Faults := n => n == if name in p.net.links then |p.net.log| else |p.net.log| + 2;
      assert !PortRecorded(p.ports, br.name, name);
      var q := PerformPut(attachFails, br, p, parent, name, kind);
      assert PortRecorded(q.ports, br.name, name);
      assert !EnslavedTo(q.net.links, br.name, name);
      assert !Sound(q);
    } else {
      forall faults: Faults
        ensures Sound(PerformPut(faults, br, p, parent, name, kind))
      {
        var q := PerformPut(faults, br, p, parent, name, kind);
        forall b, n | PortRecorded(q.ports, b, n)
          ensures EnslavedTo(q.net.links, b, n)
        {
          if PortRecorded(p.ports, b, n) {
            assert EnslavedTo(p.net.links, b, n);
          }
        }
      }
    }
  }

  /** Removing one keeps it sound under every fault exactly when the interface is not recorded as managed. */
  lemma DropAlwaysSoundIff(br: Handle, p: Plane, name: string)
    requires Sound(p) && KernelIndices(p.net.links) && Present(p.net.links, br)
    ensures (forall faults: Faults :: Sound(PerformDrop(faults, br, p, name))) <==> !PortManaged(p.ports, br.name, name)
  {
    if PortManaged(p.ports, br.name, name) {
      var deleteFails: Faults := n => n == |p.net.log| + 1;
      assert PortRecorded(p.ports, br.name, name);
      assert EnslavedTo(p.net.links, br.name, name);
      var q := PerformDrop(deleteFails, br, p, name);
      assert PortRecorded(q.ports, br.name, name) && !EnslavedTo(q.net.links, br.name, name);
      assert !Sound(q);
    } else {
      ForgettingIsSound(p, br.name, name);
    }
  }

  /** With every call succeeding, adding one is sound exactly when it takes no recorded port from another bridge. */
  lemma PutSucceedingSoundIff(faults: Faults, br: Handle, p: Plane, parent: string, name: string, kind: Kind)
    requires forall n :: !faults(n)
    requires Sound(p) && KernelIndices(p.net.links) && Present(p.net.links, br)
    ensures Sound(PerformPut(faults, br, p, parent, name, kind))
            <==> parent in p.net.links ==> forall b :: PortRecorded(p.ports, b, name) ==> b == br.name
  {
    var q := PerformPut(faults, br, p, parent, name, kind);
    if parent in p.net.links {
      if b :| PortRecorded(p.ports, b, name) && b != br.name {
        assert EnslavedTo(p.net.links, b, name);
        assert PortRecorded(q.ports, b, name) && !EnslavedTo(q.net.links, b, name);
      } else {
        forall b, n | PortRecorded(q.ports, b, n)
          ensures EnslavedTo(q.net.links, b, n)
        {
          if PortRecorded(p.ports, b, n) {
            assert EnslavedTo(p.net.links, b, n);
          }
        }
      }
    }
  }

  /** The port watcher makes any table sound again, and complete as well. */
  lemma WatchRestoresSoundness(net: Net, ports: PortTable)
    requires forall b :: b in ports ==> b in net.links
    ensures var mirror := Mirror(net.links, ports);
            && Sound(Plane(net, mirror))
            && forall b, n :: b in ports && EnslavedTo(net.links, b, n) ==> PortRecorded(mirror, b, n)
  {
    var mirror := Mirror(net.links, ports);
    forall b, n | b in ports
      ensures PortRecorded(mirror, b, n) <==> EnslavedTo(net.links, b, n)
    {
      assert n in Enslaved(net.links, b) <==> EnslavedTo(net.links, b, n);
    }
    assert Sound(Plane(net, mirror)) by {
      forall b, n | PortRecorded(mirror, b, n)
        ensures EnslavedTo(net.links, b, n)
      {
        assert b in ports;
      }
    }
  }
}
