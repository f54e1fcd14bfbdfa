/**
 What a bridge looks like once a configuration is in force, described without regard to how it got
 there: a base state, plus the egress interfaces taken and the VLAN interfaces created for it.
 With every call succeeding, one action leads from one such state to another.
 */
module Realisation {
  import opened Netlink
  import opened Management
  import opened Reconcile

  /** What a generated VLAN name stands for. */
  datatype Wanted = Wanted(parent: string, kind: Kind)

  /** Everything a chain of updates may name. */
  datatype Scope = Scope(egress: set<string>, vlans: map<string, Wanted>)

  /** Only a link without a master is taken by a bridge. */
  predicate Free(base: Plane, name: string) {
    name in base.net.links && base.net.links[name].master == 0
  }

  function Taken(base: Plane, names: set<string>): set<string> {
    set n | n in names && Free(base, n)
  }

  /** The VLAN names that get a link: those whose parent exists. */
  function Live(base: Plane, scope: Scope, names: set<string>): set<string> {
    set n | n in names && n in scope.vlans && scope.vlans[n].parent in base.net.links
  }

  /** The base state knows nothing of the scope: no VLAN link of it exists, none of its names is recorded. */
  ghost predicate Untouched(base: Plane, br: Handle, scope: Scope) {
    && br.name in base.ports && Present(base.net.links, br) && 0 < br.index < base.net.next
    && (forall n :: n in base.net.links ==> base.net.links[n].master < base.net.next)
    && (forall n :: n in scope.egress ==> n !in base.ports[br.name] && n !in scope.vlans)
    && (forall n :: n in scope.vlans ==> n !in base.ports[br.name] && n !in base.net.links)
    && (forall n :: n in scope.vlans ==> scope.vlans[n].parent !in scope.vlans)
  }

  /** The port table with the given ports of one bridge recorded as managed. */
  function Table(ports: PortTable, bridge: string, managed: set<string>): PortTable
    requires bridge in ports
  {
    ports[bridge := ports[bridge] + map n | n in managed :: true]
  }

  lemma TableSays(ports: PortTable, bridge: string, managed: set<string>, name: string)
    requires bridge in ports && name !in ports[bridge]
    ensures var t := Table(ports, bridge, managed);
            (PortRecorded(t, bridge, name) <==> name in managed) && (PortManaged(t, bridge, name) <==> name in managed)
  {
  }

  lemma TableRemove(ports: PortTable, bridge: string, managed: set<string>, name: string)
    requires bridge in ports && name !in ports[bridge]
    ensures RemovePort(Table(ports, bridge, managed), bridge, name) == Table(ports, bridge, managed - {name})
  {
    if name in managed {
      var added := map n | n in managed :: true;
      assert (ports[bridge] + added) - {name} == ports[bridge] + map n | n in managed - {name} :: true;
    } else {
      assert managed - {name} == managed;
    }
  }

  lemma TableSet(ports: PortTable, bridge: string, managed: set<string>, name: string)
    requires bridge in ports && name !in ports[bridge]
    ensures SetPort(Table(ports, bridge, managed), bridge, name, true) == Table(ports, bridge, managed + {name})
  {
    if name in managed {
      assert managed + {name} == managed;
    } else {
      var added := map n | n in managed :: true;
      assert (ports[bridge] + added)[name := true] == ports[bridge] + map n | n in managed + {name} :: true;
    }
  }

  lemma TableOfNothing(ports: PortTable, bridge: string)
    requires bridge in ports
    ensures Table(ports, bridge, {}) == ports
  {
    var t := Table(ports, bridge, {});
    assert t[bridge] == ports[bridge];
    assert t == ports;
  }

  function Moved(link: Link, br: Handle, taken: bool): Link {
    if taken then link.(master := br.index) else link
  }

  /** Is this the wanted VLAN link, on the bridge and on the right parent? Its index is a fresh one. */
  predicate VlanLink(base: Net, br: Handle, w: Wanted, link: Link) {
    && w.parent in base.links
    && link.kind == w.kind && link.parent == base.links[w.parent].index
    && link.master == br.index && link.index >= base.next
  }

  /** The links: those of the base, some of them taken, and the live VLAN links. */
  ghost predicate LinksRealised(net: Net, base: Net, br: Handle, scope: Scope, taken: set<string>, live: set<string>)
    requires live <= scope.vlans.Keys
  {
    && net.next >= base.next
    && net.links.Keys == base.links.Keys + live
    && (forall n :: n in base.links ==> net.links[n] == Moved(base.links[n], br, n in taken))
    && (forall n :: n in live ==> VlanLink(base, br, scope.vlans[n], net.links[n]))
  }

  ghost predicate Realised(p: Plane, base: Plane, br: Handle, scope: Scope, taken: set<string>, live: set<string>)
    requires Untouched(base, br, scope) && live <= scope.vlans.Keys
  {
    && LinksRealised(p.net, base.net, br, scope, taken, live)
    && p.ports == Table(base.ports, br.name, taken + live)
  }

  lemma BaseIsRealised(base: Plane, br: Handle, scope: Scope)
    requires Untouched(base, br, scope)
    ensures Realised(base, base, br, scope, {}, {})
  {
    TableOfNothing(base.ports, br.name);
    var none: set<string> := {};
    assert none + none == none;
  }

  lemma NothingTakenIsBase(p: Plane, base: Plane, br: Handle, scope: Scope)
    requires Untouched(base, br, scope) && Realised(p, base, br, scope, {}, {})
    ensures p.net.links == base.net.links && p.ports == base.ports
  {
    TableOfNothing(base.ports, br.name);
    var none: set<string> := {};
    assert none + none == none;
  }

  // ----- One action -----

  lemma ReleaseLinksRealises(faults: Faults, net: Net, base: Plane, br: Handle, scope: Scope,
                             taken: set<string>, live: set<string>, name: string)
    requires forall n :: !faults(n)
    requires Untouched(base, br, scope) && live <= scope.vlans.Keys && name in taken && Free(base, name)
    requires LinksRealised(net, base.net, br, scope, taken, live)
    ensures net.links[name].master != 0 && net.LinkSetNoMaster(faults, name).Succeeded()
    ensures LinksRealised(net.LinkSetNoMaster(faults, name), base.net, br, scope, taken - {name}, live)
  {
    assert net.links[name] == Moved(base.net.links[name], br, true);
  }

  lemma ReleaseRealises(faults: Faults, p: Plane, base: Plane, br: Handle, scope: Scope,
                        taken: set<string>, live: set<string>, name: string)
    requires forall n :: !faults(n)
    requires Untouched(base, br, scope) && live <= scope.vlans.Keys && name in scope.egress
    requires forall n :: n in taken ==> Free(base, n)
    requires Realised(p, base, br, scope, taken, live)
    ensures Realised(PerformRelease(faults, br, p, name), base, br, scope, taken - {name}, live)
  {
    TableSays(base.ports, br.name, taken + live, name);
    TableRemove(base.ports, br.name, taken + live, name);
    if name in taken {
      ReleaseLinksRealises(faults, p.net, base, br, scope, taken, live, name);
      assert PerformRelease(faults, br, p, name)
             == Plane(p.net.LinkSetNoMaster(faults, name), RemovePort(p.ports, br.name, name));
      assert taken + live - {name} == (taken - {name}) + live;
    } else {
      assert taken + live - {name} == taken + live;
      assert taken - {name} == taken;
    }
  }

  lemma AttachLinksRealises(faults: Faults, net: Net, base: Plane, br: Handle, scope: Scope,
                            taken: set<string>, live: set<string>, name: string)
    requires forall n :: !faults(n)
    requires Untouched(base, br, scope) && live <= scope.vlans.Keys && name in base.net.links
    requires LinksRealised(net, base.net, br, scope, taken, live)
    ensures net.LinkSetMaster(faults, name, br).Succeeded()
    ensures LinksRealised(net.LinkSetMaster(faults, name, br), base.net, br, scope, taken + {name}, live)
  {
    assert net.links[br.name].index == br.index;
  }

  lemma AttachRealises(faults: Faults, p: Plane, base: Plane, br: Handle, scope: Scope,
                       taken: set<string>, live: set<string>, name: string)
    requires forall n :: !faults(n)
    requires Untouched(base, br, scope) && live <= scope.vlans.Keys && name in scope.egress
    requires forall n :: n in taken ==> Free(base, n)
    requires Realised(p, base, br, scope, taken, live)
    ensures Realised(PerformAttach(faults, br, p, name), base, br, scope,
                     if Free(base, name) then taken + {name} else taken, live)
  {
    if name in taken {
      assert p.net.links[name].master == br.index;
      assert taken + {name} == taken;
    } else if Free(base, name) {
      AttachLinksRealises(faults, p.net, base, br, scope, taken, live, name);
      TableSet(base.ports, br.name, taken + live, name);
      assert taken + live + {name} == (taken + {name}) + live;
    }
  }

  lemma DropLinksRealises(faults: Faults, net: Net, base: Plane, br: Handle, scope: Scope,
                          taken: set<string>, live: set<string>, name: string)
    requires forall n :: !faults(n)
    requires Untouched(base, br, scope) && live <= scope.vlans.Keys && name in live
    requires LinksRealised(net, base.net, br, scope, taken, live)
    ensures net.links[name].master != 0 && net.LinkSetNoMaster(faults, name).Succeeded()
    ensures var gone := net.LinkSetNoMaster(faults, name).LinkDel(faults, Handle(name, net.links[name].index));
            gone.Succeeded() && LinksRealised(gone, base.net, br, scope, taken, live - {name})
  {
    assert VlanLink(base.net, br, scope.vlans[name], net.links[name]);
    var index := net.links[name].index;
    var off := net.LinkSetNoMaster(faults, name);
    var gone := off.LinkDel(faults, Handle(name, index));
    forall n | n in net.links && n != name
      ensures n in gone.links && gone.links[n] == net.links[n]
    {
      assert off.links[n] == net.links[n];
      if n in live {
        assert VlanLink(base.net, br, scope.vlans[n], net.links[n]);
      }
      assert net.links[n].master != index;
    }
  }

  lemma ManagedDrop(faults: Faults, br: Handle, p: Plane, name: string)
    requires forall n :: !faults(n)
    requires PortManaged(p.ports, br.name, name) && name in p.net.links && p.net.links[name].master != 0
    ensures PerformDrop(faults, br, p, name)
            == Plane(p.net.LinkSetNoMaster(faults, name).LinkDel(faults, Handle(name, p.net.links[name].index)),
                     RemovePort(p.ports, br.name, name))
  {
  }

  lemma DropRealises(faults: Faults, p: Plane, base: Plane, br: Handle, scope: Scope,
                     taken: set<string>, live: set<string>, name: string)
    requires forall n :: !faults(n)
    requires Untouched(base, br, scope) && live <= scope.vlans.Keys && name in scope.vlans
    requires Realised(p, base, br, scope, taken, live)
    requires name !in taken
    ensures Realised(PerformDrop(faults, br, p, name), base, br, scope, taken, live - {name})
  {
    TableSays(base.ports, br.name, taken + live, name);
    TableRemove(base.ports, br.name, taken + live, name);
    assert taken + live - {name} == taken + (live - {name});
    if name in live {
      DropLinksRealises(faults, p.net, base, br, scope, taken, live, name);
      ManagedDrop(faults, br, p, name);
    } else {
      assert live - {name} == live;
    }
  }

  /** The three kernel calls that make a missing VLAN interface a port of the bridge. */
  function NetAfterPut(faults: Faults, br: Handle, net: Net, parent: string, name: string, kind: Kind): Net
    requires parent in net.links
    requires name in net.LinkAdd(faults, name, kind, net.links[parent].index).links
  {
    net.LinkAdd(faults, name, kind, net.links[parent].index).LinkSetUp(faults, name).LinkSetMaster(faults, name, br)
  }

  lemma PutLinksRealises(faults: Faults, net: Net, base: Plane, br: Handle, scope: Scope,
                         taken: set<string>, live: set<string>, name: string)
    requires forall n :: !faults(n)
    requires Untouched(base, br, scope) && live <= scope.vlans.Keys && name in scope.vlans && name !in live
    requires scope.vlans[name].parent in base.net.links
    requires LinksRealised(net, base.net, br, scope, taken, live)
    ensures var w := scope.vlans[name];
            LinksRealised(NetAfterPut(faults, br, net, w.parent, name, w.kind), base.net, br, scope,
                          taken, live + {name})
  {
    var w := scope.vlans[name];
    assert net.links[w.parent].index == base.net.links[w.parent].index;
    assert net.links[br.name].index == br.index;
    var after := NetAfterPut(faults, br, net, w.parent, name, w.kind);
    assert after.links == net.links[name := Link(net.next, br.index, w.kind, net.links[w.parent].index)];
  }

  lemma MissingPut(faults: Faults, br: Handle, p: Plane, parent: string, name: string, kind: Kind)
    requires forall n :: !faults(n)
    requires parent in p.net.links && name !in p.net.links && br.index != 0
    ensures PerformPut(faults, br, p, parent, name, kind)
            == Plane(NetAfterPut(faults, br, p.net, parent, name, kind), SetPort(p.ports, br.name, name, true))
  {
  }

  lemma PutRealises(faults: Faults, p: Plane, base: Plane, br: Handle, scope: Scope,
                    taken: set<string>, live: set<string>, name: string)
    requires forall n :: !faults(n)
    requires Untouched(base, br, scope) && live <= scope.vlans.Keys && name in scope.vlans
    requires Realised(p, base, br, scope, taken, live)
    requires name !in taken
    ensures var w := scope.vlans[name];
            Realised(PerformPut(faults, br, p, w.parent, name, w.kind), base, br, scope,
                     taken, live + Live(base, scope, {name}))
  {
    var w := scope.vlans[name];
    if w.parent !in base.net.links {
      assert live + Live(base, scope, {name}) == live;
    } else if name in live {
      assert VlanLink(base.net, br, w, p.net.links[name]);
      TableSays(base.ports, br.name, taken + live, name);
      assert live + Live(base, scope, {name}) == live;
    } else {
      PutLinksRealises(faults, p.net, base, br, scope, taken, live, name);
      MissingPut(faults, br, p, w.parent, name, w.kind);
      TableSet(base.ports, br.name, taken + live, name);
      assert Live(base, scope, {name}) == {name};
      assert taken + live + {name} == taken + (live + {name});
    }
  }
}
