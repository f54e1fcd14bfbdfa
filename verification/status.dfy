/** Publishing the tables as BridgeInformation objects of the cluster's API server. */
module Status {
  import opened Management

  datatype PortStatus = PortStatus(name: string, managed: bool)

  datatype BridgeStatus = BridgeStatus(name: string, node: string, managed: bool, ports: seq<PortStatus>)

  type Store = map<string, BridgeStatus>

  const NEW_STATUS := BridgeStatus("", "", false, [])

  /** The API server: objects by name. Writes may fail; reads are exact. */
  class ApiServer {
    const faults: nat -> bool
    var calls: nat
    var infos: Store

    constructor (faults: nat -> bool, infos: Store)
      ensures this.faults == faults && this.infos == infos && calls == 0
    {
      this.faults, this.infos, calls := faults, infos, 0;
    }

    ghost predicate Reliable()
      reads this`calls
    {
      forall n: nat :: n >= calls ==> !faults(n)
    }

    method Create(name: string) returns (ok: bool)
      modifies this
      ensures calls == old(calls) + 1 && ok == (!faults(old(calls)) && name !in old(infos))
      ensures infos == if ok then old(infos)[name := NEW_STATUS] else old(infos)
    {
      ok := !faults(calls) && name !in infos;
      calls := calls + 1;
      if ok {
        infos := infos[name := NEW_STATUS];
      }
    }

    method Delete(name: string) returns (ok: bool)
      modifies this
      ensures calls == old(calls) + 1 && ok == !faults(old(calls))
      ensures infos == if ok then old(infos) - {name} else old(infos)
    {
      ok := !faults(calls);
      calls := calls + 1;
      if ok {
        infos := infos - {name};
      }
    }

    /** An object without a name, which a failed creation returns, is never accepted. */
    method UpdateStatus(name: string, status: BridgeStatus) returns (ok: bool)
      modifies this
      ensures calls == old(calls) + 1 && ok == (!faults(old(calls)) && name in old(infos) && name != "")
      ensures infos == if ok then old(infos)[name := status] else old(infos)
    {
      ok := !faults(calls) && name in infos && name != "";
      calls := calls + 1;
      if ok {
        infos := infos[name := status];
      }
    }
  }

  function InfoName(host: string, bridge: string): string {
    host + "-" + bridge
  }

  predicate Stale(status: BridgeStatus, host: string, bridges: BridgeTable) {
    status.node == host && status.name !in bridges
  }

  function PortsOf(ports: PortTable, bridge: string): map<string, bool> {
    if bridge in ports then ports[bridge] else map[]
  }

  /** The list names every port once, with its flag, in some order. */
  ghost predicate Lists(listed: seq<PortStatus>, ports: map<string, bool>) {
    && (forall i, j :: 0 <= i < j < |listed| ==> listed[i].name != listed[j].name)
    && (forall e :: e in listed ==> e.name in ports && ports[e.name] == e.managed)
    && (forall n :: n in ports ==> PortStatus(n, ports[n]) in listed)
  }

  ghost predicate Describes(status: BridgeStatus, host: string, bridge: string, bridges: BridgeTable, ports: PortTable)
    requires bridge in bridges
  {
    && status.name == bridge && status.node == host && status.managed == bridges[bridge]
    && Lists(status.ports, PortsOf(ports, bridge))
  }

  function InfoNames(host: string, bridges: set<string>): set<string> {
    set b | b in bridges :: InfoName(host, b)
  }

  /** The effect of a whole publication in which every call succeeded. */
  ghost predicate Published(was: Store, now: Store, host: string, bridges: BridgeTable, ports: PortTable) {
    && (forall b :: b in bridges ==>
          InfoName(host, b) in now && Describes(now[InfoName(host, b)], host, b, bridges, ports))
    && (forall n :: n !in InfoNames(host, bridges.Keys) ==>
          && (n in now <==> n in was && !Stale(was[n], host, bridges))
          && (n in now ==> now[n] == was[n]))
  }

  // ----- The publication as the daemon runs it -----

  method ListPorts(ports: map<string, bool>) returns (listed: seq<PortStatus>)
    ensures Lists(listed, ports)
  {
    listed := [];
    var todo := ports.Keys;
    while todo != {}
      invariant todo <= ports.Keys
      invariant forall i, j :: 0 <= i < j < |listed| ==> listed[i].name != listed[j].name
      invariant forall e :: e in listed ==> e.name in ports && e.name !in todo && ports[e.name] == e.managed
      invariant forall n :: n in ports && n !in todo ==> PortStatus(n, ports[n]) in listed
    {
      var port :| port in todo;
      todo := todo - {port};
      listed := listed + [PortStatus(port, ports[port])];
    }
  }

  method DeleteStale(api: ApiServer, host: string, bridges: BridgeTable)
    modifies api
    ensures api.calls >= old(api.calls)
    ensures forall n :: n in api.infos ==> n in old(api.infos) && api.infos[n] == old(api.infos)[n]
    ensures forall n :: n in old(api.infos) && !Stale(old(api.infos)[n], host, bridges) ==> n in api.infos
    ensures old(api.Reliable()) ==> forall n :: n in api.infos ==> !Stale(old(api.infos)[n], host, bridges)
  {
    var items := api.infos;
    var todo := items.Keys;
    while todo != {}
      invariant todo <= items.Keys
      invariant api.calls >= old(api.calls)
      invariant forall n :: n in api.infos ==> n in items && api.infos[n] == items[n]
      invariant forall n :: n in items && (n in todo || !Stale(items[n], host, bridges)) ==> n in api.infos
      invariant old(api.Reliable()) ==> forall n :: n in api.infos && n !in todo ==> !Stale(items[n], host, bridges)
    {
      var name :| name in todo;
      todo := todo - {name};
      if items[name].node == host && items[name].name !in bridges {
        var _ := api.Delete(name);
      }
    }
  }

  method PublishBridge(api: ApiServer, host: string, bridge: string, bridges: BridgeTable, ports: PortTable)
    requires bridge in bridges
    modifies api
    ensures api.calls >= old(api.calls)
    ensures forall n :: n != InfoName(host, bridge) ==>
              (n in api.infos <==> n in old(api.infos)) && (n in api.infos ==> api.infos[n] == old(api.infos)[n])
    ensures old(api.Reliable()) ==>
              && InfoName(host, bridge) in api.infos
              && Describes(api.infos[InfoName(host, bridge)], host, bridge, bridges, ports)
  {
    var infoName := InfoName(host, bridge);
    var target := infoName;
    if infoName !in api.infos {
      var ok := api.Create(infoName);
      if !ok {
        target := "";
      }
    }
    var listed := ListPorts(PortsOf(ports, bridge));
    var _ := api.UpdateStatus(target, BridgeStatus(bridge, host, bridges[bridge], listed));
  }

  lemma InfoNameInjective(host: string, b: string, c: string)
    ensures InfoName(host, b) == InfoName(host, c) <==> b == c
  {
    if InfoName(host, b) == InfoName(host, c) {
      assert b == InfoName(host, b)[|host| + 1..];
      assert c == InfoName(host, c)[|host| + 1..];
    }
  }

  /** The host name continues the other one through a dash, and the bridge name begins with what follows the dash. */
  ghost predicate Continues(host: string, b: string, other: string, c: string) {
    exists infix: string :: other == InfoName(host, infix) && b == InfoName(infix, c)
  }

  lemma LongerHostIff(host: string, b: string, other: string, c: string)
    requires |host| < |other|
    ensures InfoName(host, b) == InfoName(other, c) <==> Continues(host, b, other, c)
  {
    var s, t := InfoName(host, b), InfoName(other, c);
    if s == t {
      var infix := other[|host| + 1..];
      assert other == t[..|other|] && host == s[..|host|];
      assert other == InfoName(host, infix);
      assert b == s[|host| + 1..] && c == t[|other| + 1..];
      assert t[|host| + 1..] == InfoName(infix, c);
    }
    if infix: string :| other == InfoName(host, infix) && b == InfoName(infix, c) {
      assert s == t;
    }
  }

  /**
   Objects share a name exactly when they are of the same bridge of the same node,
   or one host name continues the other.
   */
  lemma SharedNameIff(host: string, b: string, other: string, c: string)
    ensures InfoName(host, b) == InfoName(other, c)
            <==> (host == other && b == c) || Continues(host, b, other, c) || Continues(other, c, host, b)
  {
    if |host| < |other| {
      LongerHostIff(host, b, other, c);
    } else if |other| < |host| {
      LongerHostIff(other, c, host, b);
    } else if InfoName(host, b) == InfoName(other, c) {
      assert host == InfoName(host, b)[..|host|] && other == InfoName(other, c)[..|host|];
      InfoNameInjective(host, b, c);
    }
  }

  method BridgeInfoUpdate(api: ApiServer, host: string, bridges: BridgeTable, ports: PortTable)
    modifies api
    ensures old(api.Reliable()) ==> Published(old(api.infos), api.infos, host, bridges, ports)
    // Whatever fails, objects of other nodes are left alone, unless they use the name of one of this node's objects.
    ensures forall n :: n !in InfoNames(host, bridges.Keys) && n in old(api.infos) && old(api.infos)[n].node != host ==>
              n in api.infos && api.infos[n] == old(api.infos)[n]
  {
    DeleteStale(api, host, bridges);
    ghost var was := api.infos;
    var todo := bridges.Keys;
    while todo != {}
      invariant todo <= bridges.Keys
      invariant api.calls >= old(api.calls)
      invariant forall n :: n !in InfoNames(host, bridges.Keys) ==>
                  (n in api.infos <==> n in was) && (n in api.infos ==> api.infos[n] == was[n])
      invariant old(api.Reliable()) ==> forall b :: b in bridges && b !in todo ==>
                  InfoName(host, b) in api.infos && Describes(api.infos[InfoName(host, b)], host, b, bridges, ports)
    {
      var bridge :| bridge in todo;
      todo := todo - {bridge};
      forall b { InfoNameInjective(host, b, bridge); }
      PublishBridge(api, host, bridge, bridges, ports);
    }
  }

  // ----- What a publication achieves -----

  /** This node's objects are named after it, and no other object uses such a name. */
  ghost predicate WellNamed(store: Store, host: string, bridges: BridgeTable) {
    && (forall n :: n in store && store[n].node == host ==> n == InfoName(host, store[n].name))
    && (forall n :: n in store && store[n].node != host ==> n !in InfoNames(host, bridges.Keys))
  }

  /** The status is that of the bridge: its flag, and each recorded port once, with its flag. */
  ghost predicate Reports(status: BridgeStatus, host: string, bridge: string, managed: bool, ports: PortTable) {
    && status.name == bridge && status.node == host && status.managed == managed
    && (forall n, m :: PortStatus(n, m) in status.ports <==> PortRecorded(ports, bridge, n) && ports[bridge][n] == m)
    && (forall i, j :: 0 <= i < j < |status.ports| ==> status.ports[i].name != status.ports[j].name)
  }

  lemma DescribesIsReports(status: BridgeStatus, host: string, bridge: string, bridges: BridgeTable, ports: PortTable)
    requires bridge in bridges && Describes(status, host, bridge, bridges, ports)
    ensures Reports(status, host, bridge, bridges[bridge], ports)
  {
    forall n, m
      ensures PortStatus(n, m) in status.ports <==> PortRecorded(ports, bridge, n) && ports[bridge][n] == m
    {
    }
  }

  lemma ObjectsOfNode(was: Store, now: Store, host: string, bridges: BridgeTable, ports: PortTable)
    requires Published(was, now, host, bridges, ports) && WellNamed(was, host, bridges)
    ensures WellNamed(now, host, bridges)
    ensures (set n | n in now && now[n].node == host) == (set b | b in bridges :: host + "-" + b)
  {
    forall n | n in now && n in InfoNames(host, bridges.Keys)
      ensures now[n].node == host && now[n].name in bridges && n == InfoName(host, now[n].name)
    {
      var b :| b in bridges && n == InfoName(host, b);
      assert Describes(now[InfoName(host, b)], host, b, bridges, ports);
    }
    assert InfoNames(host, bridges.Keys) == set b | b in bridges :: host + "-" + b;
    forall b | b in bridges
      ensures InfoName(host, b) in now && now[InfoName(host, b)].node == host
    {
      assert Describes(now[InfoName(host, b)], host, b, bridges, ports);
    }
  }

  /**
   After a publication this node's objects are exactly those of the registered bridges. Each carries the bridge's flag
   and lists exactly its recorded ports with their flags, every port once. All other objects are untouched.
   */
  lemma StatusMirrorsTables(was: Store, now: Store, host: string, bridges: BridgeTable, ports: PortTable)
    requires Published(was, now, host, bridges, ports) && WellNamed(was, host, bridges)
    ensures WellNamed(now, host, bridges)
    ensures (set n | n in now && now[n].node == host) == (set b | b in bridges :: host + "-" + b)
    ensures forall b :: b in bridges ==>
              host + "-" + b in now && Reports(now[host + "-" + b], host, b, bridges[b], ports)
    ensures forall n :: (n in was && was[n].node != host) || (n in now && now[n].node != host) ==>
              n in was && n in now && now[n] == was[n]
  {
    ObjectsOfNode(was, now, host, bridges, ports);
    forall b | b in bridges
      ensures host + "-" + b in now && Reports(now[host + "-" + b], host, b, bridges[b], ports)
    {
      assert InfoName(host, b) in now && Describes(now[InfoName(host, b)], host, b, bridges, ports);
      DescribesIsReports(now[InfoName(host, b)], host, b, bridges, ports);
    }
  }

  /**
   Without the naming assumption: foreign objects survive exactly when none uses
   the name of a registered bridge's object.
   */
  lemma ForeignObjectsSurviveIff(was: Store, now: Store, host: string, bridges: BridgeTable, ports: PortTable)
    requires Published(was, now, host, bridges, ports)
    ensures (forall n :: n in was && was[n].node != host ==> n in now && now[n] == was[n])
            <==> (forall n :: n in was && was[n].node != host ==> n !in InfoNames(host, bridges.Keys))
  {
    forall n | n in was && was[n].node != host && n in InfoNames(host, bridges.Keys)
      ensures now[n] != was[n]
    {
      var b :| b in bridges && n == InfoName(host, b);
      assert Describes(now[InfoName(host, b)], host, b, bridges, ports);
    }
  }

  /** Which objects there are after a publication, whoever they belong to. */
  lemma ObjectsAfterIff(was: Store, now: Store, host: string, bridges: BridgeTable, ports: PortTable, name: string)
    requires Published(was, now, host, bridges, ports)
    ensures name in now
            <==> || (exists b :: b in bridges && name == host + "-" + b)
                 || (name in was && (was[name].node != host || was[name].name in bridges))
  {
    if b :| b in bridges && name == host + "-" + b {
      assert InfoName(host, b) in now;
    } else {
      assert name !in InfoNames(host, bridges.Keys);
    }
  }

  /** Equal but for the order of the ports. */
  ghost predicate SameStatus(a: BridgeStatus, b: BridgeStatus) {
    a.(ports := []) == b.(ports := []) && forall e :: e in a.ports <==> e in b.ports
  }

  lemma ListsAgree(a: seq<PortStatus>, b: seq<PortStatus>, ports: map<string, bool>)
    requires Lists(a, ports) && Lists(b, ports)
    ensures forall e :: e in a <==> e in b
  {
    forall e | e in a || e in b
      ensures e in a && e in b
    {
      assert e == PortStatus(e.name, ports[e.name]);
    }
  }

  /** A second publication changes nothing but possibly the order in which ports are listed. */
  lemma SecondPublication(was: Store, now: Store, again: Store, host: string, bridges: BridgeTable, ports: PortTable)
    requires Published(was, now, host, bridges, ports) && Published(now, again, host, bridges, ports)
    ensures now.Keys == again.Keys
    ensures forall n :: n in now ==> SameStatus(now[n], again[n])
  {
    forall n
      ensures n in now <==> n in again
      ensures n in now ==> SameStatus(now[n], again[n])
    {
      if n in InfoNames(host, bridges.Keys) {
        var b :| b in bridges && n == InfoName(host, b);
        assert Describes(now[InfoName(host, b)], host, b, bridges, ports);
        assert Describes(again[InfoName(host, b)], host, b, bridges, ports);
        ListsAgree(now[n].ports, again[n].ports, PortsOf(ports, b));
      }
    }
  }
}
