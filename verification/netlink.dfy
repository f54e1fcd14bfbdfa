/**
 The kernel as the daemon sees it through netlink: links by name, and the VLAN table of every
 bridge port. Mutating calls may fail at any moment; a fault oracle says which. Every mutating
 link call is recorded in a log, so that properties can speak about what was attempted.
 */
module Netlink {

  datatype Kind = Bridge | Vlan(id: int, serviceTag: bool) | Device

  /** master is 0 when the link is not enslaved. */
  datatype Link = Link(index: nat, master: nat, kind: Kind, parent: nat)

  /** A link the daemon holds on to, as returned by a lookup. */
  datatype Handle = Handle(name: string, index: nat)

  datatype Call =
    | LinkAdd(name: string, index: nat, ok: bool)
    | LinkSetUp(name: string, ok: bool)
    | LinkSetMaster(name: string, from: nat, to: nat, ok: bool)
    | LinkSetNoMaster(name: string, from: nat, ok: bool)
    | LinkDel(name: string, index: nat, ok: bool)

  /** Says of the n-th mutating call whether it fails for a reason of its own. */
  type Faults = nat -> bool

  predicate Present(links: map<string, Link>, h: Handle) {
    h.name in links && links[h.name].index == h.index
  }

  /** No two links have the same index. */
  predicate UniqueIndices(links: map<string, Link>) {
    forall m, n :: m in links && n in links && links[m].index == links[n].index ==> m == n
  }

  function Freed(l: Link, master: nat): Link {
    if l.master == master then l.(master := 0) else l
  }

  datatype Net = Net(links: map<string, Link>, next: nat, log: seq<Call>) {

    /** Did the last mutating call succeed? */
    predicate Succeeded() {
      log != [] && log[|log| - 1].ok
    }

    /** Creates a link under an unused name, with the next free index and no master. */
    function LinkAdd(faults: Faults, name: string, kind: Kind, parent: nat): Net {
      var ok := !faults(|log|) && name !in links;
      var called := log + [Call.LinkAdd(name, next, ok)];
      if ok
      then Net(links[name := Link(next, 0, kind, parent)], next + 1, called)
      else this.(log := called)
    }

    function LinkSetUp(faults: Faults, name: string): Net {
      this.(log := log + [Call.LinkSetUp(name, !faults(|log|) && name in links)])
    }

    /** Enslaves a link, releasing it from any other master it has. */
    function LinkSetMaster(faults: Faults, name: string, br: Handle): Net
      requires name in links
    {
      var ok := !faults(|log|) && Present(links, br);
      var called := log + [Call.LinkSetMaster(name, links[name].master, br.index, ok)];
      if ok
      then Net(links[name := links[name].(master := br.index)], next, called)
      else this.(log := called)
    }

    function LinkSetNoMaster(faults: Faults, name: string): Net
      requires name in links
    {
      var ok := !faults(|log|);
      var called := log + [Call.LinkSetNoMaster(name, links[name].master, ok)];
      if ok
      then Net(links[name := links[name].(master := 0)], next, called)
      else this.(log := called)
    }

    /** Removes a link; the links it was the master of lose their master. */
    function LinkDel(faults: Faults, h: Handle): Net {
      var ok := !faults(|log|) && Present(links, h);
      var called := log + [Call.LinkDel(h.name, h.index, ok)];
      if ok
      then Net(map n | n in links && n != h.name :: Freed(links[n], h.index), next, called)
      else this.(log := called)
    }
  }

  // ----- VLAN tables of bridge ports -----

  datatype VlanFlags = VlanFlags(pvid: bool, untagged: bool)

  /** The VLANs of one port. At most one of them is the port's PVID. */
  type PortVlans = map<nat, VlanFlags>

  function WithVlan(vlans: PortVlans, vid: nat, flags: VlanFlags): PortVlans {
    var others: PortVlans := if flags.pvid then map v | v in vlans :: vlans[v].(pvid := false) else vlans;
    others[vid := flags]
  }

  function VlansAt(vlans: map<nat, PortVlans>, index: nat): PortVlans {
    if index in vlans then vlans[index] else map[]
  }

  class Kernel {
    const faults: Faults
    const vlanFaults: Faults
    var net: Net
    var vlanCalls: nat
    var vlans: map<nat, PortVlans>
    var filtering: set<nat>

    constructor (faults: Faults, vlanFaults: Faults, links: map<string, Link>, next: nat)
      ensures this.faults == faults && this.vlanFaults == vlanFaults
      ensures net == Net(links, next, []) && vlanCalls == 0 && vlans == map[] && filtering == {}
    {
      this.faults, this.vlanFaults := faults, vlanFaults;
      net := Net(links, next, []);
      vlanCalls, vlans, filtering := 0, map[], {};
    }

    method LinkAdd(name: string, kind: Kind, parent: nat) returns (ok: bool)
      modifies this`net
      ensures net == old(net).LinkAdd(faults, name, kind, parent) && ok == net.Succeeded()
    {
      net := net.LinkAdd(faults, name, kind, parent);
      ok := net.Succeeded();
    }

    /** A bridge is created with VLAN filtering on. */
    method BridgeAdd(name: string) returns (ok: bool)
      modifies this`net, this`filtering
      ensures net == old(net).LinkAdd(faults, name, Bridge, 0) && ok == net.Succeeded()
      ensures filtering == if ok then old(filtering) + {old(net.next)} else old(filtering)
    {
      var index := net.next;
      net := net.LinkAdd(faults, name, Bridge, 0);
      ok := net.Succeeded();
      if ok {
        filtering := filtering + {index};
      }
    }

    method LinkSetUp(name: string) returns (ok: bool)
      modifies this`net
      ensures net == old(net).LinkSetUp(faults, name) && ok == net.Succeeded()
    {
      net := net.LinkSetUp(faults, name);
      ok := net.Succeeded();
    }

    method LinkSetMaster(name: string, br: Handle) returns (ok: bool)
      requires name in net.links
      modifies this`net
      ensures net == old(net).LinkSetMaster(faults, name, br) && ok == net.Succeeded()
    {
      net := net.LinkSetMaster(faults, name, br);
      ok := net.Succeeded();
    }

    method LinkSetNoMaster(name: string) returns (ok: bool)
      requires name in net.links
      modifies this`net
      ensures net == old(net).LinkSetNoMaster(faults, name) && ok == net.Succeeded()
    {
      net := net.LinkSetNoMaster(faults, name);
      ok := net.Succeeded();
    }

    method LinkDel(h: Handle) returns (ok: bool)
      modifies this`net
      ensures net == old(net).LinkDel(faults, h) && ok == net.Succeeded()
    {
      net := net.LinkDel(faults, h);
      ok := net.Succeeded();
    }

    /** No bridge VLAN call from now on fails. */
    ghost predicate Reliable()
      reads this`vlanCalls
    {
      forall n: nat :: n >= vlanCalls ==> !vlanFaults(n)
    }

    method BridgeVlanAdd(index: nat, vid: nat, flags: VlanFlags) returns (ok: bool)
      modifies this`vlans, this`vlanCalls
      ensures ok == !vlanFaults(old(vlanCalls)) && vlanCalls == old(vlanCalls) + 1
      ensures vlans == if ok then old(vlans[index := WithVlan(VlansAt(vlans, index), vid, flags)]) else old(vlans)
    {
      ok := !vlanFaults(vlanCalls);
      vlanCalls := vlanCalls + 1;
      if ok {
        vlans := vlans[index := WithVlan(VlansAt(vlans, index), vid, flags)];
      }
    }

    method BridgeVlanDel(index: nat, vid: nat) returns (ok: bool)
      modifies this`vlans, this`vlanCalls
      ensures ok == !vlanFaults(old(vlanCalls)) && vlanCalls == old(vlanCalls) + 1
      ensures vlans == if ok then old(vlans[index := VlansAt(vlans, index) - {vid}]) else old(vlans)
    {
      ok := !vlanFaults(vlanCalls);
      vlanCalls := vlanCalls + 1;
      if ok {
        vlans := vlans[index := VlansAt(vlans, index) - {vid}];
      }
    }

    method BridgeSetVlanFiltering(index: nat) returns (ok: bool)
      modifies this`filtering, this`vlanCalls
      ensures ok == !vlanFaults(old(vlanCalls)) && vlanCalls == old(vlanCalls) + 1
      ensures filtering == if ok then old(filtering) + {index} else old(filtering)
    {
      ok := !vlanFaults(vlanCalls);
      vlanCalls := vlanCalls + 1;
      if ok {
        filtering := filtering + {index};
      }
    }
  }
}
