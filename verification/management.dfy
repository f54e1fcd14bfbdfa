/**
 The daemon's bookkeeping: which bridges it looks after and whether it created them, and which ports
 it has recorded for each bridge and whether it attached them itself.
 */
module Management {

  type BridgeTable = map<string, bool>
  type PortTable = map<string, map<string, bool>>

  datatype Outcome =
    | Done
    | BridgeAlreadyManaged
    | BridgeAlreadyHasPorts
    | NoSuchBridge
    | PortAlreadyManaged
    | NoSuchPort

  datatype Tables = Tables(bridges: BridgeTable, ports: PortTable)

  // ----- The four mutators, on values -----

  predicate PortRecorded(ports: PortTable, bridge: string, port: string) {
    bridge in ports && port in ports[bridge]
  }

  predicate PortManaged(ports: PortTable, bridge: string, port: string) {
    PortRecorded(ports, bridge, port) && ports[bridge][port]
  }

  function SetPort(ports: PortTable, bridge: string, port: string, managed: bool): PortTable {
    if bridge in ports && port !in ports[bridge]
    then ports[bridge := ports[bridge][port := managed]]
    else ports
  }

  function SetPortOutcome(ports: PortTable, bridge: string, port: string): Outcome {
    if bridge !in ports then NoSuchBridge
    else if port in ports[bridge] then PortAlreadyManaged
    else Done
  }

  function RemovePort(ports: PortTable, bridge: string, port: string): PortTable {
    if PortRecorded(ports, bridge, port)
    then ports[bridge := ports[bridge] - {port}]
    else ports
  }

  function RemovePortOutcome(ports: PortTable, bridge: string, port: string): Outcome {
    if PortRecorded(ports, bridge, port) then Done else NoSuchPort
  }

  /** The bridge is recorded before the port table is looked at, so a rejection may leave it behind. */
  function SetBridge(t: Tables, bridge: string, managed: bool): Tables {
    if bridge in t.bridges then t
    else if bridge in t.ports then t.(bridges := t.bridges[bridge := managed])
    else Tables(t.bridges[bridge := managed], t.ports[bridge := map[]])
  }

  function SetBridgeOutcome(t: Tables, bridge: string): Outcome {
    if bridge in t.bridges then BridgeAlreadyManaged
    else if bridge in t.ports then BridgeAlreadyHasPorts
    else Done
  }

  function UnsetBridge(t: Tables, bridge: string): Tables {
    Tables(t.bridges - {bridge}, t.ports - {bridge})
  }

  /** What the mutators report tells what they changed, and what stood in the way. */
  lemma OutcomesTell(t: Tables, bridge: string, port: string, managed: bool)
    ensures var outcome, ports := SetPortOutcome(t.ports, bridge, port), SetPort(t.ports, bridge, port, managed);
            && (outcome == Done <==> ports != t.ports)
            && (outcome == NoSuchBridge <==> bridge !in t.ports)
            && (outcome == PortAlreadyManaged <==> bridge in t.ports && port in t.ports[bridge])
    ensures var outcome, ports := RemovePortOutcome(t.ports, bridge, port), RemovePort(t.ports, bridge, port);
            && (outcome == Done <==> ports != t.ports)
            && (outcome == NoSuchPort <==> ports == t.ports)
    ensures var outcome, after := SetBridgeOutcome(t, bridge), SetBridge(t, bridge, managed);
            && (outcome == Done <==> after.bridges != t.bridges && after.ports != t.ports)
            && (outcome == BridgeAlreadyHasPorts <==> after.bridges != t.bridges && after.ports == t.ports)
            && (outcome == BridgeAlreadyManaged <==> after == t)
  {
    var ports := SetPort(t.ports, bridge, port, managed);
    assert bridge in t.ports && port !in t.ports[bridge] ==> port in ports[bridge];
    var less := RemovePort(t.ports, bridge, port);
    assert PortRecorded(t.ports, bridge, port) ==> port !in less[bridge];
    var after := SetBridge(t, bridge, managed);
    assert bridge !in t.bridges ==> bridge in after.bridges;
    assert bridge !in t.bridges && bridge !in t.ports ==> bridge in after.ports;
  }

  /** The port table, updated in place. */
  class ManagedBridgePortsInfo {
    var managedBridgePorts: PortTable

    constructor ()
      ensures managedBridgePorts == map[]
    {
      managedBridgePorts := map[];
    }

    method SetPortManagement(bridge: string, port: string, isManaged: bool) returns (outcome: Outcome)
      modifies this
      ensures managedBridgePorts == SetPort(old(managedBridgePorts), bridge, port, isManaged)
      ensures outcome == SetPortOutcome(old(managedBridgePorts), bridge, port)
    {
      if bridge !in managedBridgePorts {
        return NoSuchBridge;
      }
      if port in managedBridgePorts[bridge] {
        return PortAlreadyManaged;
      }
      managedBridgePorts := managedBridgePorts[bridge := managedBridgePorts[bridge][port := isManaged]];
      return Done;
    }

    method RemovePortManagement(bridge: string, port: string) returns (outcome: Outcome)
      modifies this
      ensures managedBridgePorts == RemovePort(old(managedBridgePorts), bridge, port)
      ensures outcome == RemovePortOutcome(old(managedBridgePorts), bridge, port)
    {
      if bridge in managedBridgePorts {
        var ports := managedBridgePorts[bridge];
        if port in ports {
          managedBridgePorts := managedBridgePorts[bridge := ports - {port}];
          return Done;
        }
      }
      return NoSuchPort;
    }

    predicate IsPortManaged(bridge: string, port: string)
      reads this
    {
      PortManaged(managedBridgePorts, bridge, port)
    }
  }

  // ----- Whole runs of the mutators -----

  datatype Mutation =
    | SetBridgeManagement(bridge: string, managed: bool)
    | UnsetBridgeManagement(bridge: string)
    | SetPortManagement(bridge: string, port: string, managed: bool)
    | RemovePortManagement(bridge: string, port: string)

  function Mutate(t: Tables, op: Mutation): Tables {
    match op
    case SetBridgeManagement(b, m) => SetBridge(t, b, m)
    case UnsetBridgeManagement(b) => UnsetBridge(t, b)
    case SetPortManagement(b, p, m) => t.(ports := SetPort(t.ports, b, p, m))
    case RemovePortManagement(b, p) => t.(ports := RemovePort(t.ports, b, p))
  }

  function MutateAll(t: Tables, ops: seq<Mutation>): Tables {
    if ops == [] then t else Mutate(MutateAll(t, ops[..|ops| - 1]), ops[|ops| - 1])
  }

  /** A bridge is registered in both tables or in neither. */
  predicate Registered(t: Tables) {
    t.bridges.Keys == t.ports.Keys
  }

  lemma {:induction false} RegisteredThroughout(t: Tables, ops: seq<Mutation>)
    requires Registered(t)
    ensures Registered(MutateAll(t, ops))
  {
    if ops != [] {
      RegisteredThroughout(t, ops[..|ops| - 1]);
    }
  }

  /** From empty tables the half-done rejection never occurs, whatever was done before. */
  lemma {:induction false} NeverHalfDone(ops: seq<Mutation>, bridge: string)
    ensures var t := MutateAll(Tables(map[], map[]), ops);
            Registered(t) && SetBridgeOutcome(t, bridge) != BridgeAlreadyHasPorts
  {
    RegisteredThroughout(Tables(map[], map[]), ops);
  }

  /** While a bridge stays recorded, its flag is the one it was first recorded with. */
  lemma {:induction false} BridgeFlagIsFixed(t: Tables, ops: seq<Mutation>, bridge: string)
    requires forall k :: 0 <= k <= |ops| ==> bridge in MutateAll(t, ops[..k]).bridges
    ensures bridge in t.bridges && bridge in MutateAll(t, ops).bridges
    ensures MutateAll(t, ops).bridges[bridge] == t.bridges[bridge]
  {
    assert ops[..0] == [] && ops[..|ops|] == ops;
    assert bridge in MutateAll(t, ops[..0]).bridges;
    if ops != [] {
      var front := ops[..|ops| - 1];
      forall k | 0 <= k <= |front|
        ensures bridge in MutateAll(t, front[..k]).bridges
      {
        assert front[..k] == ops[..k];
      }
      BridgeFlagIsFixed(t, front, bridge);
    }
  }

  /** The same for the ports of a bridge. */
  lemma {:induction false} PortFlagIsFixed(t: Tables, ops: seq<Mutation>, bridge: string, port: string)
    requires forall k :: 0 <= k <= |ops| ==> PortRecorded(MutateAll(t, ops[..k]).ports, bridge, port)
    ensures PortRecorded(t.ports, bridge, port) && PortRecorded(MutateAll(t, ops).ports, bridge, port)
    ensures PortManaged(MutateAll(t, ops).ports, bridge, port) == PortManaged(t.ports, bridge, port)
  {
    assert ops[..0] == [] && ops[..|ops|] == ops;
    assert PortRecorded(MutateAll(t, ops[..0]).ports, bridge, port);
    if ops != [] {
      var front := ops[..|ops| - 1];
      forall k | 0 <= k <= |front|
        ensures PortRecorded(MutateAll(t, front[..k]).ports, bridge, port)
      {
        assert front[..k] == ops[..k];
      }
      PortFlagIsFixed(t, front, bridge, port);
    }
  }

  const NO_TABLES := Tables(map[], map[])

  /** The port table after the first k mutators. */
  function PortsAfter(ops: seq<Mutation>, k: nat): PortTable
    requires k <= |ops|
  {
    MutateAll(NO_TABLES, ops[..k]).ports
  }

  /** The k-th mutator is what recorded the port as managed, and nothing has removed the port since. */
  ghost predicate RecordedAsManagedAt(ops: seq<Mutation>, k: nat, bridge: string, port: string) {
    && k < |ops| && ops[k] == SetPortManagement(bridge, port, true)
    && SetPortOutcome(PortsAfter(ops, k), bridge, port) == Done
    && forall j :: k < j <= |ops| ==> PortRecorded(PortsAfter(ops, j), bridge, port)
  }

  lemma PortsAfterFront(ops: seq<Mutation>, k: nat)
    requires k < |ops|
    ensures PortsAfter(ops[..|ops| - 1], k) == PortsAfter(ops, k)
  {
    assert ops[..|ops| - 1][..k] == ops[..k];
  }

  lemma RecordedEarlier(ops: seq<Mutation>, k: nat, bridge: string, port: string)
    requires k + 1 < |ops|
    ensures RecordedAsManagedAt(ops, k, bridge, port)
            <==> && RecordedAsManagedAt(ops[..|ops| - 1], k, bridge, port)
                 && PortRecorded(PortsAfter(ops, |ops|), bridge, port)
  {
    var front := ops[..|ops| - 1];
    forall j: nat | j <= |front|
      ensures PortsAfter(front, j) == PortsAfter(ops, j)
    {
      PortsAfterFront(ops, j);
    }
    if RecordedAsManagedAt(front, k, bridge, port) && PortRecorded(PortsAfter(ops, |ops|), bridge, port) {
      forall j | k < j <= |ops|
        ensures PortRecorded(PortsAfter(ops, j), bridge, port)
      {
        assert j <= |front| ==> PortRecorded(PortsAfter(front, j), bridge, port);
      }
    }
    if RecordedAsManagedAt(ops, k, bridge, port) {
      forall j | k < j <= |front|
        ensures PortRecorded(PortsAfter(front, j), bridge, port)
      {
        assert PortRecorded(PortsAfter(ops, j), bridge, port);
      }
    }
  }

  /** A port counts as managed exactly when it was recorded as managed once and has not been removed since. */
  lemma {:induction false} ManagedIff(ops: seq<Mutation>, bridge: string, port: string)
    ensures PortManaged(MutateAll(NO_TABLES, ops).ports, bridge, port)
            <==> exists k :: RecordedAsManagedAt(ops, k, bridge, port)
  {
    if ops != [] {
      var front, last := ops[..|ops| - 1], |ops| - 1;
      var before, after := MutateAll(NO_TABLES, front).ports, MutateAll(NO_TABLES, ops).ports;
      assert ops[..|ops|] == ops;
      assert PortsAfter(ops, |ops|) == after;
      ManagedIff(front, bridge, port);
      forall k: nat | k < last {
        RecordedEarlier(ops, k, bridge, port);
      }
      forall k: nat | RecordedAsManagedAt(ops, k, bridge, port)
        ensures PortManaged(after, bridge, port)
      {
        assert k == last || RecordedAsManagedAt(front, k, bridge, port);
        assert PortRecorded(after, bridge, port);
      }
      if PortManaged(after, bridge, port) && !PortManaged(before, bridge, port) {
        assert RecordedAsManagedAt(ops, last, bridge, port);
      } else if PortManaged(after, bridge, port) {
        var k :| RecordedAsManagedAt(front, k, bridge, port);
        assert RecordedAsManagedAt(ops, k, bridge, port);
      }
    }
  }
}
