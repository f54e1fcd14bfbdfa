/**
 Does the daemon delete what it created? A VLAN interface whose creation fails half way is left over.
 Here is exactly when.
 */
module Leftovers {
  import opened Configuration
  import opened Netlink
  import opened Management
  import opened Reconcile
  import opened Bridges
  import opened Records

  /** Creating the link succeeds, and then setting it up or enslaving it fails; n is the number of calls made before. */
  predicate Leaks(faults: Faults, n: nat) {
    !faults(n) && (faults(n + 1) || faults(n + 2))
  }

  /** The bridge is there, and no other link has its index. */
  ghost predicate Standing(br: Handle, net: Net) {
    && Present(net.links, br) && 0 < br.index < net.next
    && forall n :: n in net.links && n != br.name ==> net.links[n].index != br.index
  }

  /**
   What the removal of a name shows that makes its first call as the n-th. A name not recorded as managed is forgotten;
   a managed one is freed first, and goes only if both calls succeed.
   */
  function AfterDrop(faults: Faults, n: nat, was: Sight): Sight {
    if !was.managed then Sight(was.link, false, false)
    else if was.link.None? || was.link.value.master == 0 || faults(n) then was
    else if faults(n + 1) then was.(link := Some(was.link.value.(master := 0)))
    else UNKNOWN
  }

  /** What the creation of an unknown name shows that makes its first call as the n-th. */
  predicate ShowsPut(faults: Faults, n: nat, br: Handle, kind: Kind, parent: nat, sight: Sight) {
    if faults(n) then sight == UNKNOWN
    else
      && sight.link.Some? && sight.link.value.kind == kind && sight.link.value.parent == parent
      && sight.recorded == sight.managed == !faults(n + 1)
      && sight.link.value.master == if faults(n + 1) || faults(n + 2) then 0 else br.index
  }

  lemma ShownPutThenDropIff(faults: Faults, n: nat, quiet: Faults, m: nat, br: Handle, kind: Kind, parent: nat,
                            sight: Sight)
    requires br.index != 0 && ShowsPut(faults, n, br, kind, parent, sight) && !quiet(m) && !quiet(m + 1)
    ensures AfterDrop(quiet, m, sight).link.Some? <==> Leaks(faults, n)
    ensures AfterDrop(quiet, m, sight).managed <==> !faults(n) && !faults(n + 1) && faults(n + 2)
  {
  }

  // ----- One interface -----

  lemma PutShows(faults: Faults, br: Handle, p: Plane, parent: string, name: string, kind: Kind)
    requires Standing(br, p.net) && br.name in p.ports && parent in p.net.links && SightOf(br, p, name) == UNKNOWN
    ensures var n, q := |p.net.log|, PerformPut(faults, br, p, parent, name, kind);
            && Standing(br, q.net) && br.name in q.ports
            && ShowsPut(faults, n, br, kind, p.net.links[parent].index, SightOf(br, q, name))
  {
  }

  lemma DropShows(faults: Faults, br: Handle, p: Plane, name: string)
    requires Standing(br, p.net) && name != br.name
    ensures var q, was := PerformDrop(faults, br, p, name), SightOf(br, p, name);
            && Standing(br, q.net)
            && SightOf(br, q, name) == AfterDrop(faults, |p.net.log|, was)
  {
  }

  /** One interface, created whatever fails and then removed without a failure: it is left over exactly if it leaks. */
  lemma PutThenDropLeavesIff(faults: Faults, quiet: Faults, br: Handle, p: Plane, parent: string, name: string,
                             kind: Kind)
    requires forall n :: !quiet(n)
    requires Standing(br, p.net) && br.name in p.ports && parent in p.net.links && SightOf(br, p, name) == UNKNOWN
    ensures var q := PerformDrop(quiet, br, PerformPut(faults, br, p, parent, name, kind), name);
            name in q.net.links <==> Leaks(faults, |p.net.log|)
  {
    PutShows(faults, br, p, parent, name, kind);
    var q := PerformPut(faults, br, p, parent, name, kind);
    DropShows(quiet, br, q, name);
    ShownPutThenDropIff(faults, |p.net.log|, quiet, |q.net.log|, br, kind, p.net.links[parent].index,
                        SightOf(br, q, name));
  }

  // ----- A whole pass -----

  /** Links stay there, with their index. */
  ghost predicate KeepsLinks(net: Net, after: Net) {
    forall n :: n in net.links ==> n in after.links && after.links[n].index == net.links[n].index
  }

  lemma EnslaveLeavesOthers(faults: Faults, br: Handle, p: Plane, other: string, name: string)
    requires Standing(br, p.net) && other in p.net.links && name != other
    ensures var q := PerformEnslave(faults, br, p, other);
            && Standing(br, q.net) && q.ports == p.ports && KeepsLinks(p.net, q.net)
            && SightOf(br, q, name) == SightOf(br, p, name)
  {
  }

  lemma PutLeavesOthers(faults: Faults, br: Handle, p: Plane, parent: string, other: string, kind: Kind, name: string)
    requires Standing(br, p.net) && br.name in p.ports && name != other
    ensures var q := PerformPut(faults, br, p, parent, other, kind);
            && Standing(br, q.net) && br.name in q.ports && SightOf(br, q, name) == SightOf(br, p, name)
            && KeepsLinks(p.net, q.net)
  {
    if parent in p.net.links {
      if other in p.net.links {
        EnslaveLeavesOthers(faults, br, p.(ports := SetPort(p.ports, br.name, other, false)), other, name);
      } else {
        var added := p.net.LinkAdd(faults, other, kind, p.net.links[parent].index);
        var up := added.LinkSetUp(faults, other);
        if added.Succeeded() && up.Succeeded() {
          EnslaveLeavesOthers(faults, br, Plane(up, SetPort(p.ports, br.name, other, true)), other, name);
        }
      }
    }
  }

  /** None of these links is the master of the link. */
  ghost predicate NotMastered(links: map<string, Link>, names: set<string>, name: string) {
    name in links && links[name].master != 0 ==>
      forall n :: n in names && n in links ==> links[n].index != links[name].master
  }

  lemma DropLeavesOthers(faults: Faults, br: Handle, p: Plane, other: string, name: string)
    requires Standing(br, p.net) && other != br.name && name != other
    requires NotMastered(p.net.links, {other}, name)
    ensures var q := PerformDrop(faults, br, p, other);
            && Standing(br, q.net) && SightOf(br, q, name) == SightOf(br, p, name)
            && OnlyRemoves(p.net, q.net)
  {
  }

  /** Links keep their index as long as they are there, and none comes up. */
  ghost predicate OnlyRemoves(net: Net, after: Net) {
    forall n :: n in after.links ==> n in net.links && after.links[n].index == net.links[n].index
  }

  lemma {:induction false} PutsLeaveOthers(faults: Faults, br: Handle, p: Plane, vs: seq<EgressVlanInterface>,
                                           name: string)
    requires Standing(br, p.net) && br.name in p.ports && name !in VlanNamesOf(vs)
    ensures var q := PerformAll(faults, br, p, Puts(vs));
            && Standing(br, q.net) && br.name in q.ports && SightOf(br, q, name) == SightOf(br, p, name)
            && KeepsLinks(p.net, q.net)
  {
    if vs != [] {
      var front, last := vs[..|vs| - 1], vs[|vs| - 1];
      NamesSplit([], vs);
      assert Puts(vs)[..|vs| - 1] == Puts(front);
      PutsLeaveOthers(faults, br, p, front, name);
      PutLeavesOthers(faults, br, PerformAll(faults, br, p, Puts(front)), last.name, VlanInterfaceName(last),
                      VlanKind(last), name);
    }
  }

  lemma {:induction false} DropsLeaveOthers(faults: Faults, br: Handle, p: Plane, vs: seq<EgressVlanInterface>,
                                            name: string)
    requires Standing(br, p.net) && br.name !in VlanNamesOf(vs) && name !in VlanNamesOf(vs)
    requires NotMastered(p.net.links, VlanNamesOf(vs), name)
    ensures var q := PerformAll(faults, br, p, Drops(vs));
            && Standing(br, q.net) && SightOf(br, q, name) == SightOf(br, p, name)
            && OnlyRemoves(p.net, q.net)
  {
    if vs != [] {
      var front, last := vs[..|vs| - 1], vs[|vs| - 1];
      NamesSplit([], vs);
      assert Drops(vs)[..|vs| - 1] == Drops(front);
      DropsLeaveOthers(faults, br, p, front, name);
      var q := PerformAll(faults, br, p, Drops(front));
      NotMasteredStays(br, p, q, VlanNamesOf(vs), {VlanInterfaceName(last)}, name);
      DropLeavesOthers(faults, br, q, VlanInterfaceName(last), name);
    }
  }

  lemma NotMasteredStays(br: Handle, p: Plane, q: Plane, names: set<string>, fewer: set<string>, name: string)
    requires NotMastered(p.net.links, names, name) && fewer <= names
    requires SightOf(br, q, name) == SightOf(br, p, name) && OnlyRemoves(p.net, q.net)
    ensures NotMastered(q.net.links, fewer, name)
  {
  }

  /** A link on the bridge is not mastered by others. */
  lemma OnBridgeNotMastered(br: Handle, net: Net, names: set<string>, name: string)
    requires Standing(br, net) && br.name !in names
    requires name in net.links ==> net.links[name].master == 0 || net.links[name].master == br.index
    ensures NotMastered(net.links, names, name)
  {
  }

  lemma NamesAround(before: seq<EgressVlanInterface>, v: EgressVlanInterface, behind: seq<EgressVlanInterface>)
    ensures VlanNamesOf(before + [v] + behind) == VlanNamesOf(before) + {VlanInterfaceName(v)} + VlanNamesOf(behind)
  {
    var all := before + [v] + behind;
    assert v in all && (forall u :: u in before ==> u in all) && (forall u :: u in behind ==> u in all);
  }

  /** One entry of a list, with those before and behind it. */
  lemma AroundEntry(faults: Faults, br: Handle, p: Plane, before: seq<EgressVlanInterface>, v: EgressVlanInterface,
                    behind: seq<EgressVlanInterface>)
    ensures PerformAll(faults, br, p, Puts(before + [v] + behind))
            == PerformAll(faults, br, Perform(faults, br, PerformAll(faults, br, p, Puts(before)), PutVlan(v)),
                          Puts(behind))
    ensures PerformAll(faults, br, p, Drops(before + [v] + behind))
            == PerformAll(faults, br, Perform(faults, br, PerformAll(faults, br, p, Drops(before)), DropVlan(v)),
                          Drops(behind))
  {
    assert Puts(before + [v] + behind) == Puts(before) + [PutVlan(v)] + Puts(behind);
    assert Drops(before + [v] + behind) == Drops(before) + [DropVlan(v)] + Drops(behind);
    PerformConcat(faults, br, p, Puts(before) + [PutVlan(v)], Puts(behind));
    PerformConcat(faults, br, p, Drops(before) + [DropVlan(v)], Drops(behind));
    assert (Puts(before) + [PutVlan(v)])[..|before|] == Puts(before);
    assert (Drops(before) + [DropVlan(v)])[..|before|] == Drops(before);
  }

  lemma PlansOfAll(vs: seq<EgressVlanInterface>)
    ensures VlanPlan([], vs) == Puts(vs) && VlanPlan(vs, []) == Drops(vs)
  {
    MissingFromNothing(vs);
  }

  /** The state just before the entry is put. */
  function BeforePut(faults: Faults, br: Handle, p: Plane, before: seq<EgressVlanInterface>): Plane {
    PerformAll(faults, br, p, Puts(before))
  }

  lemma PutStepShows(faults: Faults, br: Handle, p: Plane, v: EgressVlanInterface)
    requires Standing(br, p.net) && br.name in p.ports && v.name in p.net.links
    requires SightOf(br, p, VlanInterfaceName(v)) == UNKNOWN
    ensures var q := Perform(faults, br, p, PutVlan(v));
            && Standing(br, q.net) && br.name in q.ports
            && ShowsPut(faults, |p.net.log|, br, VlanKind(v), p.net.links[v.name].index,
                        SightOf(br, q, VlanInterfaceName(v)))
  {
    PutShows(faults, br, p, v.name, VlanInterfaceName(v), VlanKind(v));
  }

  lemma PutsShow(faults: Faults, br: Handle, p: Plane, before: seq<EgressVlanInterface>, v: EgressVlanInterface,
                 behind: seq<EgressVlanInterface>)
    requires Standing(br, p.net) && br.name in p.ports && v.name in p.net.links
    requires VlanInterfaceName(v) !in VlanNamesOf(before) && VlanInterfaceName(v) !in VlanNamesOf(behind)
    requires SightOf(br, p, VlanInterfaceName(v)) == UNKNOWN
    ensures var name, n := VlanInterfaceName(v), |BeforePut(faults, br, p, before).net.log|;
            var q := PerformAll(faults, br, p, Puts(before + [v] + behind));
            && Standing(br, q.net)
            && ShowsPut(faults, n, br, VlanKind(v), p.net.links[v.name].index, SightOf(br, q, name))
  {
    var name, start := VlanInterfaceName(v), BeforePut(faults, br, p, before);
    AroundEntry(faults, br, p, before, v, behind);
    PutsLeaveOthers(faults, br, p, before, name);
    PutStepShows(faults, br, start, v);
    PutsLeaveOthers(faults, br, Perform(faults, br, start, PutVlan(v)), behind, name);
  }

  /** The state just before the entry is dropped. */
  function BeforeDrop(faults: Faults, br: Handle, p: Plane, before: seq<EgressVlanInterface>): Plane {
    PerformAll(faults, br, p, Drops(before))
  }

  lemma DropStepShows(faults: Faults, br: Handle, p: Plane, q: Plane, v: EgressVlanInterface, names: set<string>)
    requires Standing(br, q.net) && VlanInterfaceName(v) != br.name
    requires NotMastered(p.net.links, names, VlanInterfaceName(v))
    requires SightOf(br, q, VlanInterfaceName(v)) == SightOf(br, p, VlanInterfaceName(v)) && OnlyRemoves(p.net, q.net)
    ensures var r, name := Perform(faults, br, q, DropVlan(v)), VlanInterfaceName(v);
            && Standing(br, r.net) && SightOf(br, r, name) == AfterDrop(faults, |q.net.log|, SightOf(br, p, name))
            && NotMastered(r.net.links, names, name)
  {
    DropShows(faults, br, q, VlanInterfaceName(v));
  }

  lemma DropsShow(faults: Faults, br: Handle, p: Plane, before: seq<EgressVlanInterface>, v: EgressVlanInterface,
                  behind: seq<EgressVlanInterface>)
    requires Standing(br, p.net) && br.name !in VlanNamesOf(before + [v] + behind)
    requires VlanInterfaceName(v) !in VlanNamesOf(before) && VlanInterfaceName(v) !in VlanNamesOf(behind)
    requires NotMastered(p.net.links, VlanNamesOf(before) + VlanNamesOf(behind), VlanInterfaceName(v))
    ensures var q := PerformAll(faults, br, p, Drops(before + [v] + behind));
            && Standing(br, q.net)
            && SightOf(br, q, VlanInterfaceName(v))
               == AfterDrop(faults, |BeforeDrop(faults, br, p, before).net.log|, SightOf(br, p, VlanInterfaceName(v)))
  {
    var name := VlanInterfaceName(v);
    NamesAround(before, v, behind);
    AroundEntry(faults, br, p, before, v, behind);
    DropsLeaveOthers(faults, br, p, before, name);
    var start := BeforeDrop(faults, br, p, before);
    DropStepShows(faults, br, p, start, v, VlanNamesOf(behind));
    DropsLeaveOthers(faults, br, Perform(faults, br, start, DropVlan(v)), behind, name);
  }

  /**
   What a VLAN pass makes of an entry whose interface was not there before and whose parent was: the name, kind and
   parent of the link, and which of the three calls decide whether it is there, enslaved and recorded.
   */
  lemma CreatedAs(faults: Faults, br: Handle, p: Plane, before: seq<EgressVlanInterface>, v: EgressVlanInterface,
                  behind: seq<EgressVlanInterface>)
    requires Standing(br, p.net) && br.name in p.ports && v.name in p.net.links
    requires VlanInterfaceName(v) !in VlanNamesOf(before) && VlanInterfaceName(v) !in VlanNamesOf(behind)
    requires SightOf(br, p, VlanInterfaceName(v)) == UNKNOWN
    ensures var name := v.name + "." + PrintInt(v.id) + if v.protocol == "802.1ad" then "ad" else "";
            var n := |BeforePut(faults, br, p, before).net.log|;
            var q := PerformAll(faults, br, p, VlanPlan([], before + [v] + behind));
            && (name in q.net.links <==> !faults(n))
            && (name in q.net.links ==>
                  && q.net.links[name].kind == Vlan(v.id, v.protocol == "802.1ad")
                  && q.net.links[name].parent == p.net.links[v.name].index
                  && (q.net.links[name].master == br.index <==> !faults(n + 1) && !faults(n + 2)))
            && (PortRecorded(q.ports, br.name, name) <==> !faults(n) && !faults(n + 1))
            && (PortManaged(q.ports, br.name, name) <==> !faults(n) && !faults(n + 1))
  {
    NameAndKind(v.name, v.protocol, v.id);
    var name := v.name + "." + PrintInt(v.id);
    assert name + "" == name;
    PlansOfAll(before + [v] + behind);
    PutsShow(faults, br, p, before, v, behind);
  }

  /**
   A VLAN pass that creates interfaces, whatever fails in it, and one that removes them all, without a failure. Of an
   interface that was not there before and whose parent was, the link is left over exactly if its creation leaks,
   and a record that the daemon manages it exactly if only enslaving it failed.
   */
  lemma LeftOverIff(faults: Faults, quiet: Faults, br: Handle, p: Plane, before: seq<EgressVlanInterface>,
                    v: EgressVlanInterface, behind: seq<EgressVlanInterface>)
    requires forall n :: !quiet(n)
    requires Standing(br, p.net) && br.name in p.ports && v.name in p.net.links
    requires br.name !in VlanNamesOf(before + [v] + behind)
    requires VlanInterfaceName(v) !in VlanNamesOf(before) && VlanInterfaceName(v) !in VlanNamesOf(behind)
    requires SightOf(br, p, VlanInterfaceName(v)) == UNKNOWN
    ensures var name, all, n := VlanInterfaceName(v), before + [v] + behind, |BeforePut(faults, br, p, before).net.log|;
            var q := PerformAll(quiet, br, PerformAll(faults, br, p, VlanPlan([], all)), VlanPlan(all, []));
            && (name in q.net.links <==> Leaks(faults, n))
            && (PortManaged(q.ports, br.name, name) <==> !faults(n) && !faults(n + 1) && faults(n + 2))
  {
    var all := before + [v] + behind;
    PlansOfAll(all);
    PutsShow(faults, br, p, before, v, behind);
    var q := PerformAll(faults, br, p, Puts(all));
    NamesAround(before, v, behind);
    OnBridgeNotMastered(br, q.net, VlanNamesOf(before) + VlanNamesOf(behind), VlanInterfaceName(v));
    DropsShow(quiet, br, q, before, v, behind);
    ShownPutThenDropIff(faults, |BeforePut(faults, br, p, before).net.log|,
                        quiet, |BeforeDrop(quiet, br, q, before).net.log|, br, VlanKind(v), p.net.links[v.name].index,
                        SightOf(br, q, VlanInterfaceName(v)));
  }

  /**
   Whatever fails, a VLAN interface recorded as managed that a VLAN pass removes stays recorded exactly when there is no
   link to free, or freeing or deleting it fails. Its link goes otherwise.
   */
  lemma DroppedInPassIff(faults: Faults, br: Handle, p: Plane, oldList: seq<EgressVlanInterface>,
                         newList: seq<EgressVlanInterface>, before: seq<EgressVlanInterface>, v: EgressVlanInterface,
                         behind: seq<EgressVlanInterface>)
    requires Missing(oldList, newList) == before + [v] + behind
    requires Standing(br, p.net) && br.name in p.ports && PortManaged(p.ports, br.name, VlanInterfaceName(v))
    requires br.name !in VlanNamesOf(before + [v] + behind)
    requires VlanInterfaceName(v) !in VlanNamesOf(before) && VlanInterfaceName(v) !in VlanNamesOf(behind)
    requires VlanInterfaceName(v) !in VlanNamesOf(Missing(newList, oldList))
    requires NotMastered(p.net.links, VlanNamesOf(before) + VlanNamesOf(behind), VlanInterfaceName(v))
    ensures var name, n, links := VlanInterfaceName(v), |BeforeDrop(faults, br, p, before).net.log|, p.net.links;
            var q := PerformAll(faults, br, p, VlanPlan(oldList, newList));
            var stays := name !in links || links[name].master == 0 || faults(n) || faults(n + 1);
            && (PortRecorded(q.ports, br.name, name) <==> stays)
            && (PortManaged(q.ports, br.name, name) <==> stays)
            && (name in q.net.links <==> name in links && stays)
  {
    var toRemove, toAdd := Missing(oldList, newList), Missing(newList, oldList);
    PerformConcat(faults, br, p, Drops(toRemove), Puts(toAdd));
    DropsShow(faults, br, p, before, v, behind);
    PlanKeepsBridges(faults, br, p, Drops(toRemove));
    PutsLeaveOthers(faults, br, PerformAll(faults, br, p, Drops(toRemove)), toAdd, VlanInterfaceName(v));
  }
}
