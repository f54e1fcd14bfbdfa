/** What VLAN passes achieve: over all egress ports in one pass, and over repeated passes. */
module VlanProperties {
  import opened Netlink
  import opened VlanFiltering

  /** The ids of a port after it was asked for `wanted`: VLAN 1 is added exactly when nothing was missing. */
  function IdsAfter(had: set<nat>, wanted: set<nat>): set<nat> {
    if wanted <= had then wanted + {1} else wanted
  }

  lemma ReconciledIds(vlans: PortVlans, wanted: set<nat>)
    ensures Reconciled(vlans, wanted).Keys == IdsAfter(vlans.Keys, wanted)
  {
    var kept := vlans - (vlans.Keys - wanted);
    assert kept.Keys == vlans.Keys * wanted;
    if wanted <= vlans.Keys {
      assert kept.Keys == wanted;
    } else {
      var added := map v | v in wanted && v !in vlans :: VlanFlags(false, false);
      assert added.Keys == wanted - vlans.Keys;
    }
  }

  predicate AtMostOnePvid(vlans: PortVlans) {
    forall u, v :: u in vlans && v in vlans && vlans[u].pvid && vlans[v].pvid ==> u == v
  }

  /**
   The flags a port ends with. When nothing was missing, VLAN 1 becomes its only PVID, untagged; otherwise
   ids it had keep their flags and new ones are tagged. A port never gets a second PVID.
   */
  lemma FlagsAfter(vlans: PortVlans, wanted: set<nat>)
    ensures var after := Reconciled(vlans, wanted);
            && (AtMostOnePvid(vlans) ==> AtMostOnePvid(after))
            && (wanted <= vlans.Keys ==>
                  && (forall v :: v in after ==> (after[v].pvid <==> v == 1))
                  && after[1].untagged
                  && (forall v :: v in wanted && v != 1 ==> after[v].untagged == vlans[v].untagged))
            && (!(wanted <= vlans.Keys) ==>
                  forall v :: v in wanted ==> after[v] == if v in vlans then vlans[v] else VlanFlags(false, false))
  {
    ReconciledIds(vlans, wanted);
  }

  lemma {:induction false} RemainingIff(wanted: set<nat>, visited: seq<set<nat>>, v: nat)
    ensures v in Remaining(wanted, visited) <==> v in wanted && forall j :: 0 <= j < |visited| ==> v !in visited[j]
  {
    if visited != [] {
      RemainingIff(wanted, visited[..|visited| - 1], v);
    }
  }

  /** The ids the port visited k-th is asked for: the desired ids no earlier port had. */
  function AskedOf(wanted: set<nat>, had: seq<set<nat>>, k: nat): set<nat>
    requires k <= |had|
  {
    set v | v in wanted && forall j :: 0 <= j < k ==> v !in had[j]
  }

  lemma AskedIsRemaining(wanted: set<nat>, had: seq<set<nat>>, k: nat)
    requires k <= |had|
    ensures Remaining(wanted, had[..k]) == AskedOf(wanted, had, k)
  {
    forall v | v in Remaining(wanted, had[..k]) || v in AskedOf(wanted, had, k)
      ensures v in Remaining(wanted, had[..k]) && v in AskedOf(wanted, had, k)
    {
      RemainingIff(wanted, had[..k], v);
    }
  }

  function IdsAt(links: map<string, Link>, vlans: map<nat, PortVlans>, name: string): set<nat>
    requires name in links
  {
    VlansAt(vlans, links[name].index).Keys
  }

  /** One pass over any number of egress ports. */
  lemma PassOutcome(links: map<string, Link>, bridge: nat, egress: set<string>, order: seq<string>,
                    before: map<nat, PortVlans>, after: map<nat, PortVlans>, k: nat)
    requires FilteringPass(links, bridge, egress, order, before, after) && k < |order|
    ensures var wanted, had := Desired(links, before, bridge, egress), IdsOf(links, before, order);
            && IdsAt(links, after, order[k]) == IdsAfter(had[k], AskedOf(wanted, had, k))
            && IdsAt(links, after, order[k]) <= wanted + {1}
            && (k == 0 ==> wanted <= IdsAt(links, after, order[k]))
  {
    var wanted, had := Desired(links, before, bridge, egress), IdsOf(links, before, order);
    AskedIsRemaining(wanted, had, k);
    ReconciledIds(VlansAt(before, links[order[k]].index), Remaining(wanted, had[..k]));
  }

  /** The id is the PVID of a port of the bridge that is not one of the egress interfaces. */
  ghost predicate PvidElsewhere(links: map<string, Link>, vlans: map<nat, PortVlans>, bridge: nat, egress: set<string>,
                                v: nat)
  {
    exists n :: && n in links && links[n].master == bridge && n !in egress
                && v in VlansAt(vlans, links[n].index) && VlansAt(vlans, links[n].index)[v].pvid
  }

  lemma DesiredIff(links: map<string, Link>, vlans: map<nat, PortVlans>, bridge: nat, egress: set<string>, v: nat)
    ensures v in Desired(links, vlans, bridge, egress) <==> PvidElsewhere(links, vlans, bridge, egress, v)
  {
  }

  /**
   What egress ports carry after a pass comes from the other ports: apart from VLAN 1 an egress port carries only their
   PVIDs, and of those it has all that no egress port before it had.
   */
  lemma CarriesPvidsOnly(links: map<string, Link>, bridge: nat, egress: set<string>, order: seq<string>,
                         before: map<nat, PortVlans>, after: map<nat, PortVlans>, k: nat, v: nat)
    requires FilteringPass(links, bridge, egress, order, before, after) && k < |order| && v != 1
    ensures v in VlansAt(after, links[order[k]].index)
            <==> && PvidElsewhere(links, before, bridge, egress, v)
                 && forall j :: 0 <= j < k ==> v !in VlansAt(before, links[order[j]].index)
  {
    var wanted, had := Desired(links, before, bridge, egress), IdsOf(links, before, order);
    PassOutcome(links, bridge, egress, order, before, after, k);
    AskedIff(links, bridge, egress, order, before, k, v);
    assert v in IdsAfter(had[k], AskedOf(wanted, had, k)) <==> v in AskedOf(wanted, had, k);
  }

  /** The first egress port carries every PVID of the other ports, VLAN 1 included. */
  lemma FirstCarriesAll(links: map<string, Link>, bridge: nat, egress: set<string>, order: seq<string>,
                        before: map<nat, PortVlans>, after: map<nat, PortVlans>, v: nat)
    requires FilteringPass(links, bridge, egress, order, before, after) && order != []
    requires PvidElsewhere(links, before, bridge, egress, v)
    ensures v in VlansAt(after, links[order[0]].index)
  {
    PassOutcome(links, bridge, egress, order, before, after, 0);
    DesiredIff(links, before, bridge, egress, v);
  }

  lemma AskedIff(links: map<string, Link>, bridge: nat, egress: set<string>, order: seq<string>,
                 vlans: map<nat, PortVlans>, k: nat, v: nat)
    requires k < |order| && forall n :: n in order ==> n in links
    ensures v in AskedOf(Desired(links, vlans, bridge, egress), IdsOf(links, vlans, order), k)
            <==> && PvidElsewhere(links, vlans, bridge, egress, v)
                 && forall j :: 0 <= j < k ==> v !in VlansAt(vlans, links[order[j]].index)
  {
    DesiredIff(links, vlans, bridge, egress, v);
  }

  /**
   What a pass achieves. It treats every egress port of the bridge once, and whatever fails, all other ports keep their
   VLANs.
   */
  lemma PassIsConfined(links: map<string, Link>, bridge: nat, egress: set<string>, order: seq<string>,
                       before: map<nat, PortVlans>, after: map<nat, PortVlans>, reliable: bool)
    requires UniqueIndices(links) && PassMade(links, bridge, egress, order, before, after, reliable)
    ensures forall n :: n in order <==> n in links && links[n].master == bridge && n in egress
    ensures forall i, j :: 0 <= i < j < |order| ==> order[i] != order[j]
    ensures forall n :: n in links && n !in order ==>
              VlansAt(after, links[n].index) == VlansAt(before, links[n].index)
  {
    forall n | n in links && n !in order
      ensures VlansAt(after, links[n].index) == VlansAt(before, links[n].index)
    {
      assert !Touched(links, order, links[n].index);
    }
  }

  /**
   If nothing fails, the k-th egress port carries, apart from VLAN 1, the PVIDs of the others that none before it had.
   */
  lemma PassAchieves(links: map<string, Link>, bridge: nat, egress: set<string>, order: seq<string>,
                     before: map<nat, PortVlans>, after: map<nat, PortVlans>, k: nat, v: nat)
    requires UniqueIndices(links) && PassMade(links, bridge, egress, order, before, after, true)
    requires k < |order| && v != 1
    ensures order[k] in links
    ensures v in VlansAt(after, links[order[k]].index)
            <==> && PvidElsewhere(links, before, bridge, egress, v)
                 && forall j :: 0 <= j < k ==> v !in VlansAt(before, links[order[j]].index)
  {
    CarriesPvidsOnly(links, bridge, egress, order, before, after, k, v);
  }

  lemma AskedForAllIff(wanted: set<nat>, had: seq<set<nat>>, k: nat)
    requires k <= |had|
    ensures wanted <= AskedOf(wanted, had, k) <==> forall j :: 0 <= j < k ==> wanted !! had[j]
  {
  }

  lemma AskedForAllButOneIff(wanted: set<nat>, had: seq<set<nat>>, k: nat)
    requires k <= |had|
    ensures wanted <= AskedOf(wanted, had, k) + {1} <==> forall j :: 0 <= j < k ==> wanted * had[j] <= {1}
  {
    var asked := AskedOf(wanted, had, k);
    if wanted <= asked + {1} {
      forall j, v | 0 <= j < k && v in wanted * had[j]
        ensures v == 1
      {
        assert v !in asked;
      }
    } else {
      var v :| v in wanted && v !in asked + {1};
      var j :| 0 <= j < k && v in had[j];
      assert v in wanted * had[j];
    }
  }

  /** An egress port ends with every desired id only if the ports before it had none of them, VLAN 1 aside. */
  lemma CarriesAllIff(links: map<string, Link>, bridge: nat, egress: set<string>, order: seq<string>,
                      before: map<nat, PortVlans>, after: map<nat, PortVlans>, k: nat)
    requires FilteringPass(links, bridge, egress, order, before, after) && k < |order|
    ensures var wanted, had := Desired(links, before, bridge, egress), IdsOf(links, before, order);
            wanted <= IdsAt(links, after, order[k])
            <==> || (forall j :: 0 <= j < k ==> wanted !! had[j])
                 || (AskedOf(wanted, had, k) <= had[k] && forall j :: 0 <= j < k ==> wanted * had[j] <= {1})
  {
    PassOutcome(links, bridge, egress, order, before, after, k);
    var wanted, had := Desired(links, before, bridge, egress), IdsOf(links, before, order);
    AskedForAllIff(wanted, had, k);
    AskedForAllButOneIff(wanted, had, k);
  }

  /** Nothing but the egress ports of this bridge is touched, so the desired ids stay what they were. */
  lemma OthersUntouched(links: map<string, Link>, bridge: nat, egress: set<string>, order: seq<string>,
                        before: map<nat, PortVlans>, after: map<nat, PortVlans>)
    requires UniqueIndices(links) && FilteringPass(links, bridge, egress, order, before, after)
    ensures forall n :: n in links && !(links[n].master == bridge && n in egress) ==>
              VlansAt(after, links[n].index) == VlansAt(before, links[n].index)
    ensures Desired(links, after, bridge, egress) == Desired(links, before, bridge, egress)
  {
    forall n | n in links && !(links[n].master == bridge && n in egress)
      ensures VlansAt(after, links[n].index) == VlansAt(before, links[n].index)
    {
      assert n !in order;
      assert !Touched(links, order, links[n].index);
    }
  }

  /** A desired id held by an egress port visited earlier is taken away from every later one, VLAN 1 aside. */
  lemma LaterPortLoses(links: map<string, Link>, bridge: nat, egress: set<string>, order: seq<string>,
                       before: map<nat, PortVlans>, after: map<nat, PortVlans>, j: nat, k: nat)
    requires FilteringPass(links, bridge, egress, order, before, after) && j < k < |order|
    ensures Desired(links, before, bridge, egress) * IdsAt(links, before, order[j]) * IdsAt(links, after, order[k])
            <= {1}
  {
    PassOutcome(links, bridge, egress, order, before, after, k);
    var had := IdsOf(links, before, order);
    var asked := AskedOf(Desired(links, before, bridge, egress), had, k);
    forall v | v in had[j]
      ensures v !in asked
    {
    }
  }

  lemma DesiredFrom(links: map<string, Link>, vlans: map<nat, PortVlans>, bridge: nat, egress: set<string>,
                    name: string, v: nat)
    requires name in links && links[name].master == bridge && name !in egress
    requires v in VlansAt(vlans, links[name].index) && VlansAt(vlans, links[name].index)[v].pvid
    ensures v in Desired(links, vlans, bridge, egress)
  {
  }

  lemma ExampleFacts()
    ensures 10 in Desired(EXAMPLE_LINKS, EXAMPLE_VLANS, 1, {"e0", "e1"})
    ensures 10 in IdsAt(EXAMPLE_LINKS, EXAMPLE_VLANS, "e0") && 10 in IdsAt(EXAMPLE_LINKS, EXAMPLE_VLANS, "e1")
  {
    assert "pod" in EXAMPLE_LINKS && EXAMPLE_LINKS["pod"] == Link(4, 1, Device, 0);
    assert 10 in VlansAt(EXAMPLE_VLANS, 4) && VlansAt(EXAMPLE_VLANS, 4)[10].pvid;
    assert "pod" !in {"e0", "e1"};
    DesiredFrom(EXAMPLE_LINKS, EXAMPLE_VLANS, 1, {"e0", "e1"}, "pod", 10);
  }

  /**
   For example, two egress ports and a pod port that all carry VLAN 10: this is the pass, and the second port loses it.
   */
  lemma SecondPortLosesVlan(egress: set<string>, order: seq<string>)
    requires egress == {"e0", "e1"} && order == ["e0", "e1"]
    ensures FilteringPass(EXAMPLE_LINKS, 1, egress, order, EXAMPLE_VLANS, EXAMPLE_AFTER)
    ensures 10 in Desired(EXAMPLE_LINKS, EXAMPLE_VLANS, 1, egress)
    ensures 10 in IdsAt(EXAMPLE_LINKS, EXAMPLE_VLANS, "e1") && 10 !in IdsAt(EXAMPLE_LINKS, EXAMPLE_AFTER, "e1")
  {
    ExampleFacts();
    ExampleDesired();
    ExampleIsPass(egress, order);
  }

  lemma ExampleDesired()
    ensures Desired(EXAMPLE_LINKS, EXAMPLE_VLANS, 1, {"e0", "e1"}) == {10}
  {
    ExampleFacts();
    var desired := Desired(EXAMPLE_LINKS, EXAMPLE_VLANS, 1, {"e0", "e1"});
    forall v | v in desired
      ensures v == 10
    {
      var n :| n in EXAMPLE_LINKS && EXAMPLE_LINKS[n].master == 1 && n !in {"e0", "e1"}
               && v in VlansAt(EXAMPLE_VLANS, EXAMPLE_LINKS[n].index);
      assert n == "pod";
    }
  }

  lemma ExampleTreatments()
    ensures Reconciled(map[10 := VlanFlags(false, false)], {10})
            == map[10 := VlanFlags(false, false), 1 := VlanFlags(true, true)]
    ensures Reconciled(map[10 := VlanFlags(false, false)], {}) == map[1 := VlanFlags(true, true)]
  {
  }

  lemma ExamplePorts(egress: set<string>, order: seq<string>)
    requires egress == {"e0", "e1"} && order == ["e0", "e1"]
    ensures ListsEgressPorts(EXAMPLE_LINKS, 1, egress, order) && UniqueIndices(EXAMPLE_LINKS)
  {
    assert order[0] == "e0" && order[1] == "e1";
  }

  /** Two ports visited in turn that carry the same VLANs: nothing is left to ask the second one for. */
  lemma TwoVisits(links: map<string, Link>, vlanInfo: map<nat, PortVlans>, wanted: set<nat>, m: string, n: string,
                  vlans: PortVlans)
    requires m in links && n in links && wanted <= vlans.Keys
    requires VlansAt(vlanInfo, links[m].index) == vlans && VlansAt(vlanInfo, links[n].index) == vlans
    ensures VisitAll(links, vlanInfo, wanted, [m, n])
            == vlanInfo[links[m].index := Reconciled(vlans, wanted)][links[n].index := Reconciled(vlans, {})]
  {
    VisitNext(links, vlanInfo, wanted, [], m);
    assert [] + [m] == [m] && [m] + [n] == [m, n];
    VisitNext(links, vlanInfo, wanted, [m], n);
    assert wanted - vlans.Keys == {};
  }

  lemma ExampleIndices()
    ensures "e0" in EXAMPLE_LINKS && "e1" in EXAMPLE_LINKS
    ensures EXAMPLE_LINKS["e0"].index == 2 && EXAMPLE_LINKS["e1"].index == 3
  {
  }

  lemma ThreeTables(was: PortVlans, first: PortVlans, second: PortVlans, third: PortVlans)
    ensures var tables: map<nat, PortVlans> := map[2 := was, 3 := was, 4 := third];
            tables[2 := first][3 := second] == map[2 := first, 3 := second, 4 := third]
  {
  }

  lemma ExampleTables(plain: PortVlans)
    requires plain == map[10 := VlanFlags(false, false)]
    ensures VlansAt(EXAMPLE_VLANS, 2) == plain && VlansAt(EXAMPLE_VLANS, 3) == plain
    ensures EXAMPLE_VLANS[2 := Reconciled(plain, {10})][3 := Reconciled(plain, {})] == EXAMPLE_AFTER
  {
    ExampleTreatments();
    ThreeTables(plain, Reconciled(plain, {10}), Reconciled(plain, {}), map[10 := VlanFlags(true, true)]);
  }

  lemma ExampleVisits(m: string, n: string)
    requires m == "e0" && n == "e1"
    ensures m in EXAMPLE_LINKS && n in EXAMPLE_LINKS
    ensures VisitAll(EXAMPLE_LINKS, EXAMPLE_VLANS, {10}, [m, n]) == EXAMPLE_AFTER
  {
    var plain: PortVlans := map[10 := VlanFlags(false, false)];
    ExampleIndices();
    ExampleTables(plain);
    TwoVisits(EXAMPLE_LINKS, EXAMPLE_VLANS, {10}, m, n, plain);
  }

  lemma ExampleIsPass(egress: set<string>, order: seq<string>)
    requires egress == {"e0", "e1"} && order == ["e0", "e1"]
    ensures FilteringPass(EXAMPLE_LINKS, 1, egress, order, EXAMPLE_VLANS, EXAMPLE_AFTER)
  {
    ExampleDesired();
    ExamplePorts(egress, order);
    ExampleVisits("e0", "e1");
    VisitAllIsPass(EXAMPLE_LINKS, 1, egress, order, EXAMPLE_VLANS, EXAMPLE_AFTER);
  }

  const EXAMPLE_LINKS: map<string, Link> :=
    map["br" := Link(1, 0, Bridge, 0), "e0" := Link(2, 1, Device, 0),
        "e1" := Link(3, 1, Device, 0), "pod" := Link(4, 1, Device, 0)]

  const EXAMPLE_AFTER: map<nat, PortVlans> :=
    map[2 := map[10 := VlanFlags(false, false), 1 := VlanFlags(true, true)], 3 := map[1 := VlanFlags(true, true)],
        4 := map[10 := VlanFlags(true, true)]]

  const EXAMPLE_VLANS: map<nat, PortVlans> :=
    map[2 := map[10 := VlanFlags(false, false)], 3 := map[10 := VlanFlags(false, false)],
        4 := map[10 := VlanFlags(true, true)]]

  // ----- Repeated passes over one egress port -----

  ghost predicate Passes(links: map<string, Link>, bridge: nat, egress: set<string>, port: string,
                         tables: seq<map<nat, PortVlans>>)
  {
    forall i :: 0 < i < |tables| ==> FilteringPass(links, bridge, egress, [port], tables[i - 1], tables[i])
  }

  lemma {:induction false} DesiredStays(links: map<string, Link>, bridge: nat, egress: set<string>, port: string,
                                        tables: seq<map<nat, PortVlans>>, i: nat)
    requires UniqueIndices(links) && Passes(links, bridge, egress, port, tables) && i < |tables|
    ensures Desired(links, tables[i], bridge, egress) == Desired(links, tables[0], bridge, egress)
  {
    if i > 0 {
      OthersUntouched(links, bridge, egress, [port], tables[i - 1], tables[i]);
      DesiredStays(links, bridge, egress, port, tables, i - 1);
    }
  }

  /** From the second pass on the port carries the desired ids and VLAN 1, whatever it had at first. */
  lemma FixedPoint(links: map<string, Link>, bridge: nat, egress: set<string>, port: string,
                   tables: seq<map<nat, PortVlans>>, i: nat)
    requires UniqueIndices(links) && port in links
    requires Passes(links, bridge, egress, port, tables) && 0 < i < |tables|
    ensures var wanted := Desired(links, tables[0], bridge, egress);
            && wanted <= IdsAt(links, tables[i], port) <= wanted + {1}
            && (i >= 2 ==> IdsAt(links, tables[i], port) == wanted + {1})
  {
    DesiredStays(links, bridge, egress, port, tables, i - 1);
    PassOutcome(links, bridge, egress, [port], tables[i - 1], tables[i], 0);
    if i >= 2 {
      DesiredStays(links, bridge, egress, port, tables, i - 2);
      PassOutcome(links, bridge, egress, [port], tables[i - 2], tables[i - 1], 0);
    }
  }

  /** A third pass leaves even the flags of the port alone. */
  lemma FlagsSettle(vlans: PortVlans, wanted: set<nat>)
    ensures var first := Reconciled(vlans, wanted);
            var second := Reconciled(first, wanted);
            Reconciled(second, wanted) == second
  {
    ReconciledIds(vlans, wanted);
    ReconciledIds(Reconciled(vlans, wanted), wanted);
  }
}
