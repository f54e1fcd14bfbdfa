/** The port watcher: makes the port table mirror the kernel. */
module PortWatch {
  import opened Netlink
  import opened Management

  /** Every lookup the pass makes finds its link; otherwise the daemon would dereference nil. */
  ghost predicate LookupsSucceed(links: map<string, Link>, ports: PortTable) {
    && (forall n :: n in links && links[n].master != 0 ==> exists m :: m in links && links[m].index == links[n].master)
    && (forall b :: b in ports ==> b in links)
  }

  ghost predicate KernelIndices(links: map<string, Link>) {
    UniqueIndices(links) && forall n :: n in links ==> links[n].index != 0
  }

  function Enslaved(links: map<string, Link>, bridge: string): set<string>
    requires bridge in links
  {
    set n | n in links && links[n].master == links[bridge].index
  }

  /** The exact mirror: the recorded ports are the enslaved links; surviving entries keep their flag. */
  function Mirror(links: map<string, Link>, ports: PortTable): PortTable
    requires forall b :: b in ports ==> b in links
  {
    map b | b in ports :: map n | n in Enslaved(links, b) :: n in ports[b] && ports[b][n]
  }

  /** After the first loop: the links looked at so far are recorded, nothing has been removed yet. */
  ghost predicate Extended(links: map<string, Link>, was: PortTable, now: PortTable, seen: set<string>)
    requires forall b :: b in was ==> b in links
  {
    && now.Keys == was.Keys
    && (forall b, n :: PortRecorded(now, b, n)
          <==> PortRecorded(was, b, n) || (b in was && n in seen && n in Enslaved(links, b)))
    && (forall b, n :: PortManaged(now, b, n) <==> PortManaged(was, b, n))
  }

  lemma NothingToRecord(links: map<string, Link>, was: PortTable, now: PortTable, seen: set<string>, name: string)
    requires forall b :: b in was ==> b in links
    requires Extended(links, was, now, seen)
    requires forall b :: b in was && name in Enslaved(links, b) ==> name in now[b]
    ensures Extended(links, was, now, seen + {name})
  {
    forall b, n
      ensures PortRecorded(now, b, n)
              <==> PortRecorded(was, b, n) || (b in was && n in seen + {name} && n in Enslaved(links, b))
    {
    }
  }

  lemma RecordOne(links: map<string, Link>, was: PortTable, now: PortTable, seen: set<string>, name: string,
                  bridge: string)
    requires KernelIndices(links)
    requires forall b :: b in was ==> b in links
    requires Extended(links, was, now, seen)
    requires bridge in now && name in Enslaved(links, bridge)
    ensures Extended(links, was, SetPort(now, bridge, name, false), seen + {name})
  {
    var next := SetPort(now, bridge, name, false);
    forall b, n
      ensures PortRecorded(next, b, n)
              <==> PortRecorded(was, b, n) || (b in was && n in seen + {name} && n in Enslaved(links, b))
    {
      assert PortRecorded(next, b, n) <==> PortRecorded(now, b, n) || (b == bridge && n == name);
    }
    forall b, n
      ensures PortManaged(next, b, n) <==> PortManaged(was, b, n)
    {
      assert PortManaged(next, b, n) <==> PortManaged(now, b, n);
    }
  }

  method RecordNewPorts(kernel: Kernel, info: ManagedBridgePortsInfo)
    requires KernelIndices(kernel.net.links)
    requires LookupsSucceed(kernel.net.links, info.managedBridgePorts)
    modifies info
    ensures Extended(kernel.net.links, old(info.managedBridgePorts), info.managedBridgePorts, kernel.net.links.Keys)
  {
    var links := kernel.net.links;
    var todo := links.Keys;
    ghost var was, seen := info.managedBridgePorts, {};
    while todo != {}
      invariant todo <= links.Keys && seen == links.Keys - todo
      invariant Extended(links, was, info.managedBridgePorts, seen)
    {
      var name :| name in todo;
      todo := todo - {name};
      ghost var now := info.managedBridgePorts;
      var masterIndex := links[name].master;
      if masterIndex != 0 {
        var bridge :| bridge in links && links[bridge].index == masterIndex;
        if bridge in info.managedBridgePorts && name !in info.managedBridgePorts[bridge] {
          var _ := info.SetPortManagement(bridge, name, false);
          RecordOne(links, was, now, seen, name, bridge);
        } else {
          NothingToRecord(links, was, now, seen, name);
        }
      } else {
        NothingToRecord(links, was, now, seen, name);
      }
      seen := seen + {name};
    }
    assert seen == links.Keys;
  }

  /** After the second loop has treated the bridges in `done`: they keep only enslaved ports. */
  ghost predicate Trimmed(links: map<string, Link>, was: PortTable, now: PortTable, done: set<string>)
    requires forall b :: b in was ==> b in links
  {
    && now.Keys == was.Keys
    && (forall b, n :: PortRecorded(now, b, n) <==> PortRecorded(was, b, n) && (b in done ==> n in Enslaved(links, b)))
    && (forall b, n :: PortManaged(now, b, n) <==> PortManaged(was, b, n) && PortRecorded(now, b, n))
  }

  method TrimBridge(kernel: Kernel, info: ManagedBridgePortsInfo, bridge: string)
    requires bridge in info.managedBridgePorts && bridge in kernel.net.links
    modifies info
    ensures var t := old(info.managedBridgePorts[bridge]);
            info.managedBridgePorts
            == old(info.managedBridgePorts)[bridge := t - (t.Keys - Enslaved(kernel.net.links, bridge))]
  {
    var links := kernel.net.links;
    var bridgeIndex := links[bridge].index;
    ghost var was, t := info.managedBridgePorts, info.managedBridgePorts[bridge];
    ghost var gone := {};
    var todo := info.managedBridgePorts[bridge].Keys;
    assert t - gone == t;
    while todo != {}
      invariant todo <= t.Keys && gone == t.Keys - todo - Enslaved(links, bridge)
      invariant info.managedBridgePorts == was[bridge := t - gone]
    {
      var port :| port in todo;
      todo := todo - {port};
      if port in links && links[port].master == bridgeIndex {
        continue;
      }
      assert t - gone - {port} == t - (gone + {port});
      gone := gone + {port};
      var _ := info.RemovePortManagement(bridge, port);
    }
    assert gone == t.Keys - Enslaved(links, bridge);
  }

  method RemoveStalePorts(kernel: Kernel, info: ManagedBridgePortsInfo)
    requires forall b :: b in info.managedBridgePorts ==> b in kernel.net.links
    modifies info
    ensures Trimmed(kernel.net.links, old(info.managedBridgePorts), info.managedBridgePorts,
                    old(info.managedBridgePorts).Keys)
  {
    var todo := info.managedBridgePorts.Keys;
    ghost var was := info.managedBridgePorts;
    while todo != {}
      invariant todo <= was.Keys
      invariant Trimmed(kernel.net.links, was, info.managedBridgePorts, was.Keys - todo)
    {
      var bridge :| bridge in todo;
      todo := todo - {bridge};
      TrimBridge(kernel, info, bridge);
    }
  }

  lemma TrimmedIsMirror(links: map<string, Link>, was: PortTable, extended: PortTable, now: PortTable)
    requires forall b :: b in was ==> b in links
    requires Extended(links, was, extended, links.Keys)
    requires Trimmed(links, extended, now, extended.Keys)
    ensures now == Mirror(links, was)
  {
    var mirror := Mirror(links, was);
    forall b | b in was
      ensures now[b] == mirror[b]
    {
      forall n | n in now[b] || n in mirror[b]
        ensures n in now[b] && n in mirror[b] && now[b][n] == mirror[b][n]
      {
        assert PortRecorded(now, b, n) <==> PortRecorded(extended, b, n) && n in Enslaved(links, b);
        assert PortManaged(now, b, n) <==> PortManaged(extended, b, n) && PortRecorded(now, b, n);
        assert PortManaged(extended, b, n) <==> PortManaged(was, b, n);
      }
    }
  }

  /** The whole pass, from any table contents. */
  method BridgePortWatch(kernel: Kernel, info: ManagedBridgePortsInfo)
    requires KernelIndices(kernel.net.links)
    requires LookupsSucceed(kernel.net.links, info.managedBridgePorts)
    modifies info
    ensures info.managedBridgePorts == Mirror(kernel.net.links, old(info.managedBridgePorts))
  {
    ghost var was := info.managedBridgePorts;
    RecordNewPorts(kernel, info);
    ghost var extended := info.managedBridgePorts;
    RemoveStalePorts(kernel, info);
    TrimmedIsMirror(kernel.net.links, was, extended, info.managedBridgePorts);
  }

  /** A pass leaves a second pass nothing to do. */
  lemma SecondPassChangesNothing(links: map<string, Link>, ports: PortTable)
    requires forall b :: b in ports ==> b in links
    ensures Mirror(links, Mirror(links, ports)) == Mirror(links, ports)
  {
    var mirror := Mirror(links, ports);
    forall b | b in mirror
      ensures Mirror(links, mirror)[b] == mirror[b]
    {
    }
  }

  /** A table is its own mirror exactly when it records the enslaved links of every bridge, no more and no less. */
  lemma UndisturbedIff(links: map<string, Link>, ports: PortTable)
    requires forall b :: b in ports ==> b in links
    ensures Mirror(links, ports) == ports <==> forall b :: b in ports ==> ports[b].Keys == Enslaved(links, b)
  {
    var mirror := Mirror(links, ports);
    forall b | b in ports
      ensures ports[b].Keys == Enslaved(links, b) <==> mirror[b] == ports[b]
    {
      assert mirror[b].Keys == Enslaved(links, b);
      if ports[b].Keys == Enslaved(links, b) {
        assert mirror[b] == ports[b];
      }
    }
  }
}
