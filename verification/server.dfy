/** The node daemon: its state, and its event handlers as atomic steps. */
module Server {
  import opened Configuration
  import opened Netlink
  import opened Management
  import opened Reconcile
  import opened Bridges
  import opened VlanFiltering
  import opened PortWatch

  /** Does a configuration with this node selector apply to the node? */
  type Matches = map<string, string> -> bool

  /** Links, tables and everything asked of the kernel so far. */
  datatype World = World(plane: Plane, bridges: BridgeTable)

  // ----- The handlers, on values -----

  function OnAdd(faults: Faults, matches: Matches, w: World, config: BridgeConfiguration): World {
    if !matches(config.nodeSelector) then w
    else
      var t := SetBridge(Tables(w.bridges, w.plane.ports), config.name, config.name !in w.plane.net.links);
      World(AfterConfigure(faults, Plane(w.plane.net, t.ports), config), t.bridges)
  }

  function OnUpdate(faults: Faults, w: World, oldConfig: BridgeConfiguration, config: BridgeConfiguration): World {
    w.(plane := AfterUpdate(faults, w.plane, Some(oldConfig), config))
  }

  function BridgeFlag(bridges: BridgeTable, name: string): bool {
    name in bridges && bridges[name]
  }

  function OnDelete(faults: Faults, matches: Matches, w: World, config: BridgeConfiguration): World {
    if !matches(config.nodeSelector) then w
    else
      var q := AfterUnconfigure(faults, w.plane, config, BridgeFlag(w.bridges, config.name));
      var t := UnsetBridge(Tables(w.bridges, q.ports), config.name);
      World(Plane(q.net, t.ports), t.bridges)
  }

  function OnPortWatch(w: World): World
    requires forall b :: b in w.plane.ports ==> b in w.plane.net.links
  {
    w.(plane := w.plane.(ports := Mirror(w.plane.net.links, w.plane.ports)))
  }

  class Server {
    const kernel: Kernel
    const matches: Matches
    const portsInfo: ManagedBridgePortsInfo
    var managedBridges: BridgeTable

    constructor (kernel: Kernel, matches: Matches)
      ensures this.kernel == kernel && this.matches == matches && fresh(portsInfo)
      ensures managedBridges == map[] && portsInfo.managedBridgePorts == map[]
    {
      this.kernel, this.matches := kernel, matches;
      portsInfo := new ManagedBridgePortsInfo();
      managedBridges := map[];
    }

    ghost function Current(): World
      reads this, kernel, portsInfo
    {
      World(Plane(kernel.net, portsInfo.managedBridgePorts), managedBridges)
    }

    method SetBridgeManagement(bridge: string, isManaged: bool) returns (outcome: Outcome)
      modifies this`managedBridges, portsInfo
      ensures Tables(managedBridges, portsInfo.managedBridgePorts)
              == SetBridge(old(Tables(managedBridges, portsInfo.managedBridgePorts)), bridge, isManaged)
      ensures outcome == SetBridgeOutcome(old(Tables(managedBridges, portsInfo.managedBridgePorts)), bridge)
    {
      if bridge in managedBridges {
        return BridgeAlreadyManaged;
      }
      managedBridges := managedBridges[bridge := isManaged];
      if bridge in portsInfo.managedBridgePorts {
        return BridgeAlreadyHasPorts;
      }
      portsInfo.managedBridgePorts := portsInfo.managedBridgePorts[bridge := map[]];
      return Done;
    }

    method UnsetBridgeManagement(bridge: string)
      modifies this`managedBridges, portsInfo
      ensures Tables(managedBridges, portsInfo.managedBridgePorts)
              == UnsetBridge(old(Tables(managedBridges, portsInfo.managedBridgePorts)), bridge)
    {
      if bridge in managedBridges {
        managedBridges := managedBridges - {bridge};
      }
      assert bridge !in old(managedBridges) ==> old(managedBridges) - {bridge} == old(managedBridges);
      portsInfo.managedBridgePorts := portsInfo.managedBridgePorts - {bridge};
    }

    method OnBridgeConfigAdd(config: BridgeConfiguration) returns (ghost order: seq<string>)
      modifies this`managedBridges, portsInfo, kernel`net, kernel`vlans, kernel`vlanCalls, kernel`filtering
      ensures Current() == OnAdd(kernel.faults, matches, old(Current()), config)
      ensures kernel.filtering == if matches(config.nodeSelector) && config.name !in old(kernel.net.links)
                                     && !kernel.faults(old(|kernel.net.log|))
                                  then old(kernel.filtering) + {old(kernel.net.next)}
                                  else old(kernel.filtering)
      ensures if matches(config.nodeSelector) && ConfigureSucceeds(kernel.faults, old(kernel.net), config.name)
              then PassMade(kernel.net.links, old(kernel.net.next), EgressNames(config), order,
                            old(kernel.vlans), kernel.vlans, old(kernel.Reliable()))
              else kernel.vlans == old(kernel.vlans)
    {
      order := [];
      if matches(config.nodeSelector) {
        var existing := config.name in kernel.net.links;
        var _ := SetBridgeManagement(config.name, existing == false);
        // A rejected registration is logged only; the bridge is set up all the same.
        var _, visited := BridgeConfigured(kernel, portsInfo, config);
        order := visited;
      }
    }

    /** The node selector is evaluated on the old configuration both times, so a change of it is never seen. */
    method OnBridgeConfigUpdate(oldConfig: BridgeConfiguration, config: BridgeConfiguration)
      returns (ghost order: seq<string>)
      modifies portsInfo, kernel`net, kernel`vlans, kernel`vlanCalls, kernel`filtering
      ensures Current() == OnUpdate(kernel.faults, old(Current()), oldConfig, config)
      ensures kernel.filtering == if old(config.name in kernel.net.links && kernel.net.links[config.name].kind == Bridge
                                         && !kernel.vlanFaults(kernel.vlanCalls))
                                  then old(kernel.filtering) + {old(kernel.net.links)[config.name].index}
                                  else old(kernel.filtering)
      ensures if old(config.name in kernel.net.links && kernel.net.links[config.name].kind == Bridge
                     && (|| kernel.net.links[config.name].index in kernel.filtering
                         || !kernel.vlanFaults(kernel.vlanCalls)))
              then PassMade(kernel.net.links, old(kernel.net.links)[config.name].index, EgressNames(config), order,
                            old(kernel.vlans), kernel.vlans, old(kernel.Reliable()))
              else kernel.vlans == old(kernel.vlans)
    {
      var oldMatches := matches(oldConfig.nodeSelector);
      var nowMatches := matches(oldConfig.nodeSelector);
      if nowMatches != oldMatches {
        // The branch for a changed selector, which cannot be taken.
        assert false;
      }
      var _, visited := BridgeUpdate(kernel, portsInfo, Some(oldConfig), config);
      order := visited;
    }

    method OnBridgeConfigDelete(config: BridgeConfiguration)
      modifies this`managedBridges, portsInfo, kernel`net
      ensures Current() == OnDelete(kernel.faults, matches, old(Current()), config)
    {
      if matches(config.nodeSelector) {
        var managed := config.name in managedBridges && managedBridges[config.name];
        var _ := BridgeUnconfigured(kernel, portsInfo, config, managed);
        UnsetBridgeManagement(config.name);
      }
    }

    method WatchPorts()
      requires KernelIndices(kernel.net.links)
      requires LookupsSucceed(kernel.net.links, portsInfo.managedBridgePorts)
      modifies portsInfo
      ensures Current() == OnPortWatch(old(Current()))
    {
      BridgePortWatch(kernel, portsInfo);
    }
  }
}
