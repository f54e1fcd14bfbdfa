/** When a whole VLAN pass keeps the port table sound: with every call succeeding, and whatever fails. */
module VlanSoundness {
  import opened Configuration
  import opened Netlink
  import opened Management
  import opened PortWatch
  import opened Reconcile
  import opened Soundness

  // ----- With every call succeeding -----


  /**
   The state of a VLAN pass begun in `start` that is sound so far. The names are those the pass generates; the
   parents are links it creates VLAN interfaces on.
   */
  ghost predicate SoundSoFar(start: Plane, br: Handle, names: set<string>, parents: set<string>, p: Plane) {
    Sound(p) && LinksInOrder(start.net, br, parents, p.net) && TablesInOrder(start.ports, br, names, parents, p.ports)
  }

  ghost predicate LinksInOrder(start: Net, br: Handle, parents: set<string>, net: Net) {
    && KernelIndices(net.links) && Present(net.links, br)
    && (forall n :: n in net.links ==> net.links[n].index < net.next)
    && (forall n :: n in parents ==> (n in net.links <==> n in start.links))
  }

  ghost predicate TablesInOrder(start: PortTable, br: Handle, names: set<string>, parents: set<string>,
                                ports: PortTable)
  {
    && names !! parents && names !! ports.Keys && br.name !in names
    && (forall b, n :: b != br.name ==> (PortRecorded(ports, b, n) <==> PortRecorded(start, b, n)))
  }

  /** A port of another bridge has been taken from it. */
  ghost predicate TakenFrom(br: Handle, p: Plane, b: string, name: string) {
    && b != br.name && PortRecorded(p.ports, b, name)
    && b in p.net.links && p.net.links[b].index != br.index && Present(p.net.links, br)
    && name in p.net.links && p.net.links[name].master == br.index
  }

  /** No other bridge has recorded the interface that would be put on this one. */
  ghost predicate NotOthers(start: Plane, br: Handle, v: EgressVlanInterface) {
    v.name in start.net.links ==> forall b :: PortRecorded(start.ports, b, VlanInterfaceName(v)) ==> b == br.name
  }

  /** Links other than `name` keep their index, and a link created under `name` gets a fresh one. */
  ghost predicate OnlyTouches(net: Net, after: Net, name: string) {
    && net.next <= after.next
    && (forall n :: n != name ==> (n in after.links <==> n in net.links))
    && (forall n :: n in after.links && n in net.links ==> after.links[n].index == net.links[n].index)
    && (name in after.links && name !in net.links ==> after.links[name].index == net.next < after.next)
  }

  lemma PutOnlyTouches(faults: Faults, br: Handle, p: Plane, parent: string, name: string, kind: Kind)
    ensures OnlyTouches(p.net, PerformPut(faults, br, p, parent, name, kind).net, name)
  {
  }

  lemma DropOnlyTouches(faults: Faults, br: Handle, p: Plane, name: string)
    ensures OnlyTouches(p.net, PerformDrop(faults, br, p, name).net, name)
  {
  }

  lemma TouchingKeepsLinks(start: Net, br: Handle, parents: set<string>, net: Net, after: Net, name: string)
    requires LinksInOrder(start, br, parents, net) && name !in parents && name != br.name
    requires OnlyTouches(net, after, name)
    ensures LinksInOrder(start, br, parents, after)
  {
    assert net.links[br.name].index < net.next;
    forall m, n | m in after.links && n in after.links && after.links[m].index == after.links[n].index
      ensures m == n
    {
      assert m in net.links ==> net.links[m].index < net.next;
      assert n in net.links ==> net.links[n].index < net.next;
    }
  }

  lemma DropKeepsSound(faults: Faults, br: Handle, p: Plane, name: string)
    requires forall n :: !faults(n)
    requires Sound(p) && KernelIndices(p.net.links) && Present(p.net.links, br)
    requires name !in p.ports && name != br.name
    ensures Sound(PerformDrop(faults, br, p, name))
  {
    var q := PerformDrop(faults, br, p, name);
    assert forall b, n :: PortRecorded(q.ports, b, n) ==> PortRecorded(p.ports, b, n);
    if PortManaged(p.ports, br.name, name) {
      assert PortRecorded(p.ports, br.name, name) && EnslavedTo(p.net.links, br.name, name);
      forall b, n | PortRecorded(q.ports, b, n)
        ensures EnslavedTo(q.net.links, b, n)
      {
        assert PortRecorded(p.ports, b, n) && EnslavedTo(p.net.links, b, n);
        assert b != name && n != name;
      }
    }
  }

  lemma DropSoFar(faults: Faults, start: Plane, br: Handle, names: set<string>, parents: set<string>, p: Plane,
                  name: string)
    requires forall n :: !faults(n)
    requires SoundSoFar(start, br, names, parents, p) && name in names
    ensures SoundSoFar(start, br, names, parents, PerformDrop(faults, br, p, name))
  {
    DropOnlyTouches(faults, br, p, name);
    TouchingKeepsLinks(start.net, br, parents, p.net, PerformDrop(faults, br, p, name).net, name);
    DropKeepsSound(faults, br, p, name);
    var ports := PerformDrop(faults, br, p, name).ports;
    assert ports == p.ports || ports == RemovePort(p.ports, br.name, name);
  }

  lemma PutKeepsTables(faults: Faults, start: PortTable, br: Handle, names: set<string>, parents: set<string>, p: Plane,
                       parent: string, name: string, kind: Kind)
    requires TablesInOrder(start, br, names, parents, p.ports)
    ensures TablesInOrder(start, br, names, parents, PerformPut(faults, br, p, parent, name, kind).ports)
  {
    var ports := PerformPut(faults, br, p, parent, name, kind).ports;
    assert || ports == p.ports
           || ports == SetPort(p.ports, br.name, name, true)
           || ports == SetPort(p.ports, br.name, name, false);
  }

  lemma PutSoFar(faults: Faults, start: Plane, br: Handle, names: set<string>, parents: set<string>, p: Plane,
                 parent: string, name: string, kind: Kind)
    requires forall n :: !faults(n)
    requires SoundSoFar(start, br, names, parents, p) && name in names && parent in parents
    requires parent in start.net.links ==> forall b :: PortRecorded(start.ports, b, name) ==> b == br.name
    ensures SoundSoFar(start, br, names, parents, PerformPut(faults, br, p, parent, name, kind))
  {
    PutOnlyTouches(faults, br, p, parent, name, kind);
    TouchingKeepsLinks(start.net, br, parents, p.net, PerformPut(faults, br, p, parent, name, kind).net, name);
    PutKeepsTables(faults, start.ports, br, names, parents, p, parent, name, kind);
    assert parent in p.net.links ==> forall b :: PortRecorded(p.ports, b, name) ==> b == br.name;
    PutSucceedingSoundIff(faults, br, p, parent, name, kind);
  }

  lemma PutTakes(faults: Faults, start: Plane, br: Handle, names: set<string>, parents: set<string>, p: Plane,
                 parent: string, name: string, kind: Kind, b: string)
    requires forall n :: !faults(n)
    requires SoundSoFar(start, br, names, parents, p) && name in names && parent in parents
    requires parent in start.net.links && PortRecorded(start.ports, b, name) && b != br.name
    ensures TakenFrom(br, PerformPut(faults, br, p, parent, name, kind), b, name)
  {
    assert PortRecorded(p.ports, b, name) && EnslavedTo(p.net.links, b, name);
  }

  lemma PutLeavesTaken(faults: Faults, br: Handle, p: Plane, b: string, taken: string, parent: string, name: string,
                       kind: Kind)
    requires TakenFrom(br, p, b, taken)
    ensures TakenFrom(br, PerformPut(faults, br, p, parent, name, kind), b, taken)
  {
  }

  lemma {:induction false} DropsSoFar(faults: Faults, start: Plane, br: Handle, names: set<string>,
                                      parents: set<string>, p: Plane, vs: seq<EgressVlanInterface>)
    requires forall n :: !faults(n)
    requires SoundSoFar(start, br, names, parents, p) && VlanNamesOf(vs) <= names
    ensures SoundSoFar(start, br, names, parents, PerformAll(faults, br, p, Drops(vs)))
  {
    if vs != [] {
      var front, last := vs[..|vs| - 1], vs[|vs| - 1];
      assert Drops(vs)[..|vs| - 1] == Drops(front);
      assert VlanInterfaceName(last) in VlanNamesOf(vs) && VlanNamesOf(front) <= VlanNamesOf(vs);
      DropsSoFar(faults, start, br, names, parents, p, front);
      DropSoFar(faults, start, br, names, parents, PerformAll(faults, br, p, Drops(front)), VlanInterfaceName(last));
    }
  }

  ghost predicate SomeTaken(br: Handle, p: Plane) {
    exists b, name :: TakenFrom(br, p, b, name)
  }

  lemma PutStepSoFar(faults: Faults, start: Plane, br: Handle, names: set<string>, parents: set<string>, p: Plane,
                     v: EgressVlanInterface)
    requires forall n :: !faults(n)
    requires SoundSoFar(start, br, names, parents, p) && VlanInterfaceName(v) in names && v.name in parents
    ensures var q := Perform(faults, br, p, PutVlan(v));
            if NotOthers(start, br, v) then SoundSoFar(start, br, names, parents, q) else SomeTaken(br, q)
  {
    var name, q := VlanInterfaceName(v), Perform(faults, br, p, PutVlan(v));
    if NotOthers(start, br, v) {
      PutSoFar(faults, start, br, names, parents, p, v.name, name, VlanKind(v));
    } else {
      var b :| PortRecorded(start.ports, b, name) && b != br.name;
      PutTakes(faults, start, br, names, parents, p, v.name, name, VlanKind(v), b);
      assert TakenFrom(br, q, b, name);
    }
  }

  lemma PutStepLeavesTaken(faults: Faults, br: Handle, p: Plane, v: EgressVlanInterface)
    requires SomeTaken(br, p)
    ensures SomeTaken(br, Perform(faults, br, p, PutVlan(v)))
  {
    var b, taken :| TakenFrom(br, p, b, taken);
    PutLeavesTaken(faults, br, p, b, taken, v.name, VlanInterfaceName(v), VlanKind(v));
    assert TakenFrom(br, Perform(faults, br, p, PutVlan(v)), b, taken);
  }

  lemma {:induction false} PutsSoFar(faults: Faults, start: Plane, br: Handle, names: set<string>, parents: set<string>,
                                     p: Plane, vs: seq<EgressVlanInterface>)
    requires forall n :: !faults(n)
    requires SoundSoFar(start, br, names, parents, p)
    requires forall v :: v in vs ==> VlanInterfaceName(v) in names && v.name in parents
    ensures var q := PerformAll(faults, br, p, Puts(vs));
            if forall v :: v in vs ==> NotOthers(start, br, v)
            then SoundSoFar(start, br, names, parents, q)
            else SomeTaken(br, q)
  {
    if vs != [] {
      var front, last := vs[..|vs| - 1], vs[|vs| - 1];
      assert vs == front + [last];
      assert Puts(vs)[..|vs| - 1] == Puts(front);
      PutsSoFar(faults, start, br, names, parents, p, front);
      var q := PerformAll(faults, br, p, Puts(front));
      if forall v :: v in front ==> NotOthers(start, br, v) {
        PutStepSoFar(faults, start, br, names, parents, q, last);
      } else {
        PutStepLeavesTaken(faults, br, q, last);
      }
    }
  }

  /**
   With every call succeeding, the VLAN pass keeps the table sound exactly when no interface it puts on the bridge
   is recorded under another one. No generated name is that of a registered bridge, or of a parent.
   */
  lemma VlanPassSoundIff(faults: Faults, br: Handle, p: Plane, oldList: seq<EgressVlanInterface>,
                         newList: seq<EgressVlanInterface>, names: set<string>, parents: set<string>)
    requires forall n :: !faults(n)
    requires names == VlanNamesOf(oldList) + VlanNamesOf(newList) && parents == set v | v in newList :: v.name
    requires SoundSoFar(p, br, names, parents, p)
    ensures Sound(PerformAll(faults, br, p, VlanPlan(oldList, newList)))
            <==> forall v :: v in newList && v !in oldList ==> NotOthers(p, br, v)
  {
    var toRemove, toAdd := Missing(oldList, newList), Missing(newList, oldList);
    forall v | v in oldList || v in toRemove {
      MissingIff(oldList, newList, v);
    }
    forall v | v in newList || v in toAdd {
      MissingIff(newList, oldList, v);
    }
    PerformConcat(faults, br, p, Drops(toRemove), Puts(toAdd));
    assert VlanNamesOf(toRemove) <= names;
    DropsSoFar(faults, p, br, names, parents, p, toRemove);
    PutsSoFar(faults, p, br, names, parents, PerformAll(faults, br, p, Drops(toRemove)), toAdd);
    var q := PerformAll(faults, br, p, VlanPlan(oldList, newList));
    if SomeTaken(br, q) {
      var b, name :| TakenFrom(br, q, b, name);
      assert PortRecorded(q.ports, b, name) && !EnslavedTo(q.net.links, b, name);
    }
  }

  // ----- Whatever fails -----

  /** The entry has no parent to be created on, or its link is on the bridge already. */
  ghost predicate NothingToEnslave(links: map<string, Link>, br: Handle, v: EgressVlanInterface) {
    v.name !in links || EnslavedTo(links, br.name, VlanInterfaceName(v))
  }

  ghost predicate NoneManaged(ports: PortTable, bridge: string, vs: seq<EgressVlanInterface>) {
    forall v :: v in vs ==> !PortManaged(ports, bridge, VlanInterfaceName(v))
  }

  ghost predicate NoneToEnslave(links: map<string, Link>, br: Handle, vs: seq<EgressVlanInterface>) {
    forall v :: v in vs ==> NothingToEnslave(links, br, v)
  }

  lemma SplitLast(p: Plane, br: Handle, vs: seq<EgressVlanInterface>)
    requires vs != []
    ensures var front, last := vs[..|vs| - 1], vs[|vs| - 1];
            && (NoneManaged(p.ports, br.name, vs)
                <==> NoneManaged(p.ports, br.name, front) && !PortManaged(p.ports, br.name, VlanInterfaceName(last)))
            && (NoneToEnslave(p.net.links, br, vs)
                <==> NoneToEnslave(p.net.links, br, front) && NothingToEnslave(p.net.links, br, last))
  {
    assert vs == vs[..|vs| - 1] + [vs[|vs| - 1]];
  }

  lemma UnmanagedDropForgets(faults: Faults, br: Handle, p: Plane, name: string)
    requires Sound(p) && !PortManaged(p.ports, br.name, name)
    ensures var q := PerformDrop(faults, br, p, name);
            && q == Plane(p.net, RemovePort(p.ports, br.name, name)) && Sound(q) && q.ports.Keys == p.ports.Keys
            && forall n :: PortManaged(q.ports, br.name, n) <==> PortManaged(p.ports, br.name, n)
  {
    ForgettingIsSound(p, br.name, name);
  }

  lemma LastDrop(faults: Faults, br: Handle, p: Plane, vs: seq<EgressVlanInterface>)
    requires vs != []
    ensures PerformAll(faults, br, p, Drops(vs))
            == Perform(faults, br, PerformAll(faults, br, p, Drops(vs[..|vs| - 1])), DropVlan(vs[|vs| - 1]))
  {
    PlansSplit([], vs);
  }

  lemma LastPut(faults: Faults, br: Handle, p: Plane, vs: seq<EgressVlanInterface>)
    requires vs != []
    ensures PerformAll(faults, br, p, Puts(vs))
            == Perform(faults, br, PerformAll(faults, br, p, Puts(vs[..|vs| - 1])), PutVlan(vs[|vs| - 1]))
  {
    PlansSplit([], vs);
  }

  lemma IdlePutRecords(faults: Faults, br: Handle, p: Plane, v: EgressVlanInterface)
    requires Sound(p) && Present(p.net.links, br) && NothingToEnslave(p.net.links, br, v)
    ensures var q := Perform(faults, br, p, PutVlan(v));
            Sound(q) && q.net == p.net && q.ports.Keys == p.ports.Keys
  {
    var q := Perform(faults, br, p, PutVlan(v));
    forall b, n | PortRecorded(q.ports, b, n)
      ensures EnslavedTo(q.net.links, b, n)
    {
      if PortRecorded(p.ports, b, n) {
        assert EnslavedTo(p.net.links, b, n);
      }
    }
  }

  /** Removing entries that are not recorded as managed makes no call. */
  lemma {:induction false} UnmanagedDropsForget(faults: Faults, br: Handle, p: Plane, vs: seq<EgressVlanInterface>)
    requires Sound(p) && NoneManaged(p.ports, br.name, vs)
    ensures var q := PerformAll(faults, br, p, Drops(vs));
            && Sound(q) && q.net == p.net && q.ports.Keys == p.ports.Keys
            && forall n :: PortManaged(q.ports, br.name, n) <==> PortManaged(p.ports, br.name, n)
  {
    if vs != [] {
      SplitLast(p, br, vs);
      UnmanagedDropsForget(faults, br, p, vs[..|vs| - 1]);
      LastDrop(faults, br, p, vs);
      UnmanagedDropForgets(faults, br, PerformAll(faults, br, p, Drops(vs[..|vs| - 1])),
                           VlanInterfaceName(vs[|vs| - 1]));
    }
  }

  /** Neither does creating entries that have nothing to enslave. */
  lemma {:induction false} IdlePutsRecord(faults: Faults, br: Handle, p: Plane, vs: seq<EgressVlanInterface>)
    requires Sound(p) && Present(p.net.links, br) && NoneToEnslave(p.net.links, br, vs)
    ensures var q := PerformAll(faults, br, p, Puts(vs));
            Sound(q) && q.net == p.net && q.ports.Keys == p.ports.Keys
  {
    if vs != [] {
      SplitLast(p, br, vs);
      IdlePutsRecord(faults, br, p, vs[..|vs| - 1]);
      LastPut(faults, br, p, vs);
      IdlePutRecords(faults, br, PerformAll(faults, br, p, Puts(vs[..|vs| - 1])), vs[|vs| - 1]);
    }
  }

  /** Every call from the n-th on fails. */
  ghost predicate AllFailFrom(faults: Faults, n: nat) {
    forall m: nat :: m >= n ==> faults(m)
  }

  /** A port of the bridge is recorded but not enslaved to it, and no call succeeds any more. */
  ghost predicate Broken(faults: Faults, br: Handle, p: Plane, name: string) {
    && PortRecorded(p.ports, br.name, name) && !EnslavedTo(p.net.links, br.name, name)
    && AllFailFrom(faults, |p.net.log|)
  }

  /** Moreover the record cannot be removed. */
  ghost predicate Stuck(faults: Faults, br: Handle, p: Plane, name: string) {
    && Broken(faults, br, p, name) && PortManaged(p.ports, br.name, name)
    && name in p.net.links && p.net.links[name].master == 0
  }

  lemma PutLeavesBroken(faults: Faults, br: Handle, p: Plane, parent: string, other: string, kind: Kind, name: string)
    requires Broken(faults, br, p, name)
    ensures Broken(faults, br, PerformPut(faults, br, p, parent, other, kind), name)
  {
  }

  lemma DropLeavesStuck(faults: Faults, br: Handle, p: Plane, other: string, name: string)
    requires Stuck(faults, br, p, name)
    ensures Stuck(faults, br, PerformDrop(faults, br, p, other), name)
  {
  }

  lemma ManagedDropBreaks(faults: Faults, br: Handle, p: Plane, name: string)
    requires Sound(p) && KernelIndices(p.net.links) && PortManaged(p.ports, br.name, name)
    requires !faults(|p.net.log|) && AllFailFrom(faults, |p.net.log| + 1)
    ensures Stuck(faults, br, PerformDrop(faults, br, p, name), name)
  {
    assert PortRecorded(p.ports, br.name, name) && EnslavedTo(p.net.links, br.name, name);
  }

  /** No call but the two that create a link under an unused name succeeds. */
  function OnlyCreation(net: Net, name: string): Faults {
    m => name in net.links || m >= |net.log| + 2
  }

  lemma PutBreaks(br: Handle, p: Plane, v: EgressVlanInterface)
    requires Sound(p) && KernelIndices(p.net.links) && Present(p.net.links, br) && br.name in p.ports
    requires !NothingToEnslave(p.net.links, br, v)
    ensures var name := VlanInterfaceName(v);
            Broken(OnlyCreation(p.net, name), br, Perform(OnlyCreation(p.net, name), br, p, PutVlan(v)), name)
  {
    assert !PortRecorded(p.ports, br.name, VlanInterfaceName(v));
  }

  lemma LastDropBreaks(faults: Faults, br: Handle, p: Plane, vs: seq<EgressVlanInterface>)
    requires Sound(p) && KernelIndices(p.net.links)
    requires !faults(|p.net.log|) && AllFailFrom(faults, |p.net.log| + 1)
    requires vs != [] && NoneManaged(p.ports, br.name, vs[..|vs| - 1])
    requires PortManaged(p.ports, br.name, VlanInterfaceName(vs[|vs| - 1]))
    ensures Stuck(faults, br, PerformAll(faults, br, p, Drops(vs)), VlanInterfaceName(vs[|vs| - 1]))
  {
    var front := vs[..|vs| - 1];
    UnmanagedDropsForget(faults, br, p, front);
    LastDrop(faults, br, p, vs);
    ManagedDropBreaks(faults, br, PerformAll(faults, br, p, Drops(front)), VlanInterfaceName(vs[|vs| - 1]));
  }

  lemma LastDropLeavesStuck(faults: Faults, br: Handle, p: Plane, vs: seq<EgressVlanInterface>, name: string)
    requires vs != [] && Stuck(faults, br, PerformAll(faults, br, p, Drops(vs[..|vs| - 1])), name)
    ensures Stuck(faults, br, PerformAll(faults, br, p, Drops(vs)), name)
  {
    LastDrop(faults, br, p, vs);
    DropLeavesStuck(faults, br, PerformAll(faults, br, p, Drops(vs[..|vs| - 1])), VlanInterfaceName(vs[|vs| - 1]),
                    name);
  }

  /** If only the first call succeeds, the first removal that makes it leaves a record behind for good. */
  lemma {:induction false} DropsBreak(faults: Faults, br: Handle, p: Plane, vs: seq<EgressVlanInterface>)
    returns (name: string)
    requires Sound(p) && KernelIndices(p.net.links)
    requires !faults(|p.net.log|) && AllFailFrom(faults, |p.net.log| + 1)
    requires !NoneManaged(p.ports, br.name, vs)
    ensures Stuck(faults, br, PerformAll(faults, br, p, Drops(vs)), name)
  {
    SplitLast(p, br, vs);
    if NoneManaged(p.ports, br.name, vs[..|vs| - 1]) {
      name := VlanInterfaceName(vs[|vs| - 1]);
      LastDropBreaks(faults, br, p, vs);
    } else {
      name := DropsBreak(faults, br, p, vs[..|vs| - 1]);
      LastDropLeavesStuck(faults, br, p, vs, name);
    }
  }

  lemma LastPutBreaks(br: Handle, p: Plane, vs: seq<EgressVlanInterface>)
    requires Sound(p) && KernelIndices(p.net.links) && Present(p.net.links, br) && br.name in p.ports
    requires vs != [] && NoneToEnslave(p.net.links, br, vs[..|vs| - 1])
    requires !NothingToEnslave(p.net.links, br, vs[|vs| - 1])
    ensures var name := VlanInterfaceName(vs[|vs| - 1]);
            var faults := OnlyCreation(p.net, name);
            Broken(faults, br, PerformAll(faults, br, p, Puts(vs)), name)
  {
    var front := vs[..|vs| - 1];
    var faults := OnlyCreation(p.net, VlanInterfaceName(vs[|vs| - 1]));
    IdlePutsRecord(faults, br, p, front);
    LastPut(faults, br, p, vs);
    PutBreaks(br, PerformAll(faults, br, p, Puts(front)), vs[|vs| - 1]);
  }

  lemma LastPutLeavesBroken(faults: Faults, br: Handle, p: Plane, vs: seq<EgressVlanInterface>, name: string)
    requires vs != [] && Broken(faults, br, PerformAll(faults, br, p, Puts(vs[..|vs| - 1])), name)
    ensures Broken(faults, br, PerformAll(faults, br, p, Puts(vs)), name)
  {
    var last := vs[|vs| - 1];
    LastPut(faults, br, p, vs);
    PutLeavesBroken(faults, br, PerformAll(faults, br, p, Puts(vs[..|vs| - 1])), last.name, VlanInterfaceName(last),
                    VlanKind(last), name);
  }

  lemma {:induction false} PutsLeaveBroken(faults: Faults, br: Handle, p: Plane, vs: seq<EgressVlanInterface>,
                                           name: string)
    requires Broken(faults, br, p, name)
    ensures Broken(faults, br, PerformAll(faults, br, p, Puts(vs)), name)
  {
    if vs != [] {
      PutsLeaveBroken(faults, br, p, vs[..|vs| - 1], name);
      LastPutLeavesBroken(faults, br, p, vs, name);
    }
  }

  /**
   If no call but the creation of the link succeeds, the first entry that has something
   to enslave is recorded and not enslaved.
   */
  lemma {:induction false} PutsBreak(br: Handle, p: Plane, vs: seq<EgressVlanInterface>)
    returns (faults: Faults, name: string)
    requires Sound(p) && KernelIndices(p.net.links) && Present(p.net.links, br) && br.name in p.ports
    requires !NoneToEnslave(p.net.links, br, vs)
    ensures Broken(faults, br, PerformAll(faults, br, p, Puts(vs)), name)
  {
    SplitLast(p, br, vs);
    if NoneToEnslave(p.net.links, br, vs[..|vs| - 1]) {
      name := VlanInterfaceName(vs[|vs| - 1]);
      faults := OnlyCreation(p.net, name);
      LastPutBreaks(br, p, vs);
    } else {
      faults, name := PutsBreak(br, p, vs[..|vs| - 1]);
      LastPutLeavesBroken(faults, br, p, vs, name);
    }
  }

  lemma {:induction false} UnmanagedDropsAgree(faults: Faults, faults': Faults, br: Handle, p: Plane,
                                               vs: seq<EgressVlanInterface>)
    requires Sound(p) && NoneManaged(p.ports, br.name, vs)
    ensures PerformAll(faults, br, p, Drops(vs)) == PerformAll(faults', br, p, Drops(vs))
  {
    if vs != [] {
      var front := vs[..|vs| - 1];
      SplitLast(p, br, vs);
      UnmanagedDropsAgree(faults, faults', br, p, front);
      UnmanagedDropsForget(faults, br, p, front);
      LastDrop(faults, br, p, vs);
      LastDrop(faults', br, p, vs);
      UnmanagedDropForgets(faults, br, PerformAll(faults, br, p, Drops(front)), VlanInterfaceName(vs[|vs| - 1]));
      UnmanagedDropForgets(faults', br, PerformAll(faults, br, p, Drops(front)), VlanInterfaceName(vs[|vs| - 1]));
    }
  }

  lemma BrokenIsUnsound(faults: Faults, br: Handle, p: Plane, name: string)
    requires Broken(faults, br, p, name)
    ensures !Sound(p)
  {
  }

  lemma IdlePassIsSound(faults: Faults, br: Handle, p: Plane, toRemove: seq<EgressVlanInterface>,
                        toAdd: seq<EgressVlanInterface>)
    requires Sound(p) && Present(p.net.links, br)
    requires NoneManaged(p.ports, br.name, toRemove)
    requires NoneToEnslave(p.net.links, br, toAdd)
    ensures Sound(PerformAll(faults, br, p, Drops(toRemove) + Puts(toAdd)))
  {
    PerformConcat(faults, br, p, Drops(toRemove), Puts(toAdd));
    UnmanagedDropsForget(faults, br, p, toRemove);
    IdlePutsRecord(faults, br, PerformAll(faults, br, p, Drops(toRemove)), toAdd);
  }

  lemma OtherPassBreaks(br: Handle, p: Plane, toRemove: seq<EgressVlanInterface>, toAdd: seq<EgressVlanInterface>)
    returns (faults: Faults)
    requires Sound(p) && KernelIndices(p.net.links) && Present(p.net.links, br) && br.name in p.ports
    requires || !NoneManaged(p.ports, br.name, toRemove)
             || !NoneToEnslave(p.net.links, br, toAdd)
    ensures !Sound(PerformAll(faults, br, p, Drops(toRemove) + Puts(toAdd)))
  {
    var name;
    if NoneManaged(p.ports, br.name, toRemove) {
      var none: Faults := _ => false;
      UnmanagedDropsForget(none, br, p, toRemove);
      faults, name := PutsBreak(br, PerformAll(none, br, p, Drops(toRemove)), toAdd);
      UnmanagedDropsAgree(none, faults, br, p, toRemove);
    } else {
      var n := |p.net.log|;
      faults := m => m != n;
      name := DropsBreak(faults, br, p, toRemove);
      PutsLeaveBroken(faults, br, PerformAll(faults, br, p, Drops(toRemove)), toAdd, name);
    }
    PerformConcat(faults, br, p, Drops(toRemove), Puts(toAdd));
    BrokenIsUnsound(faults, br, PerformAll(faults, br, p, Drops(toRemove) + Puts(toAdd)), name);
  }

  /**
   The VLAN pass keeps the table sound under every fault exactly when no entry it removes is recorded as managed and
   no entry it adds has anything to enslave: when it has nothing to do in the kernel.
   */
  lemma VlanPassAlwaysSoundIff(br: Handle, p: Plane, oldList: seq<EgressVlanInterface>,
                               newList: seq<EgressVlanInterface>)
    requires Sound(p) && KernelIndices(p.net.links) && Present(p.net.links, br) && br.name in p.ports
    ensures (forall faults: Faults :: Sound(PerformAll(faults, br, p, VlanPlan(oldList, newList))))
            <==> && (forall v :: v in oldList && v !in newList ==> !PortManaged(p.ports, br.name, VlanInterfaceName(v)))
                 && (forall v :: v in newList && v !in oldList ==> NothingToEnslave(p.net.links, br, v))
  {
    var toRemove, toAdd := Missing(oldList, newList), Missing(newList, oldList);
    forall v {
      MissingIff(oldList, newList, v);
    }
    forall v {
      MissingIff(newList, oldList, v);
    }
    if NoneManaged(p.ports, br.name, toRemove) && NoneToEnslave(p.net.links, br, toAdd) {
      forall faults: Faults
        ensures Sound(PerformAll(faults, br, p, VlanPlan(oldList, newList)))
      {
        IdlePassIsSound(faults, br, p, toRemove, toAdd);
      }
    } else {
      var faults := OtherPassBreaks(br, p, toRemove, toAdd);
      assert !Sound(PerformAll(faults, br, p, VlanPlan(oldList, newList)));
    }
  }
}
