/** The declared state: bridge configurations and the VLAN interface names derived from them. */
module Configuration {

  datatype Option<+T> = None | Some(value: T)

  datatype EgressInterface = EgressInterface(name: string)

  datatype EgressVlanInterface = EgressVlanInterface(name: string, protocol: string, id: int)

  datatype BridgeConfiguration = BridgeConfiguration(
    namespace: string,
    name: string,
    nodeSelector: map<string, string>,
    egressVlanInterfaces: seq<EgressVlanInterface>,
    egressInterfaces: seq<EgressInterface>)

  // ----- Decimal printing, as the %d verb does it -----

  function PrintDigit(d: nat): char
    requires d < 10
  {
    ('0' as int + d) as char
  }

  predicate IsDigit(c: char) {
    '0' <= c <= '9'
  }

  function DigitValue(c: char): nat
    requires IsDigit(c)
  {
    c as int - '0' as int
  }

  function PrintNat(n: nat): (s: string)
    ensures s != [] && forall i :: 0 <= i < |s| ==> IsDigit(s[i])
  {
    if n < 10 then [PrintDigit(n)] else PrintNat(n / 10) + [PrintDigit(n % 10)]
  }

  function PrintInt(i: int): string {
    if i < 0 then "-" + PrintNat(-i) else PrintNat(i)
  }

  function ParseNat(s: string): Option<int> {
    if s == [] || !IsDigit(s[|s| - 1]) then None
    else if |s| == 1 then Some(DigitValue(s[0]))
    else
      match ParseNat(s[..|s| - 1])
      case None => None
      case Some(n) => Some(10 * n + DigitValue(s[|s| - 1]))
  }

  function ParseInt(s: string): Option<int> {
    if s != [] && s[0] == '-' then
      match ParseNat(s[1..])
      case None => None
      case Some(n) => Some(-n)
    else
      ParseNat(s)
  }

  lemma {:induction false} ParsePrintedNat(n: nat)
    ensures ParseNat(PrintNat(n)) == Some(n)
  {
    if n >= 10 {
      var s := PrintNat(n);
      assert s[..|s| - 1] == PrintNat(n / 10);
      ParsePrintedNat(n / 10);
    }
  }

  lemma ParsePrintedInt(i: int)
    ensures ParseInt(PrintInt(i)) == Some(i)
  {
    if i < 0 {
      var digits := PrintNat(-i);
      var s := "-" + digits;
      assert s[0] == '-' && s[1..] == digits;
      ParsePrintedNat(-i);
      assert ParseInt(s) == Some(i);
    } else {
      var s := PrintNat(i);
      assert IsDigit(s[0]) && s[0] != '-';
      ParsePrintedNat(i);
    }
  }

  // ----- Names of egress VLAN interfaces -----

  predicate IsServiceTag(v: EgressVlanInterface) {
    v.protocol == "802.1ad"
  }

  /** The link name of an egress VLAN interface; any protocol other than 802.1ad counts as 802.1q. */
  function VlanInterfaceName(v: EgressVlanInterface): string {
    if IsServiceTag(v)
    then v.name + "." + PrintInt(v.id) + "ad"
    else v.name + "." + PrintInt(v.id)
  }

  function EgressNamesOf(es: seq<EgressInterface>): set<string> {
    set e | e in es :: e.name
  }

  function VlanNamesOf(vs: seq<EgressVlanInterface>): set<string> {
    set v | v in vs :: VlanInterfaceName(v)
  }

  /** The names of the links a configuration wants on its bridge. */
  function EgressNames(config: BridgeConfiguration): set<string> {
    EgressNamesOf(config.egressInterfaces) + VlanNamesOf(config.egressVlanInterfaces)
  }

  lemma NamesSplit(es: seq<EgressInterface>, vs: seq<EgressVlanInterface>)
    ensures es != [] ==> EgressNamesOf(es) == EgressNamesOf(es[..|es| - 1]) + {es[|es| - 1].name}
    ensures vs != [] ==> VlanNamesOf(vs) == VlanNamesOf(vs[..|vs| - 1]) + {VlanInterfaceName(vs[|vs| - 1])}
  {
    assert es != [] ==> es == es[..|es| - 1] + [es[|es| - 1]];
    assert vs != [] ==> vs == vs[..|vs| - 1] + [vs[|vs| - 1]];
  }

  datatype VlanName = VlanName(parent: string, serviceTag: bool, id: int)

  /** One more than the position of the last dot, 0 when there is none. */
  function AfterLastDot(s: string): (k: nat)
    ensures k <= |s|
  {
    if s == [] then 0
    else if s[|s| - 1] == '.' then |s|
    else AfterLastDot(s[..|s| - 1])
  }

  lemma {:induction false} LastDot(parent: string, tail: string)
    requires '.' !in tail
    ensures AfterLastDot(parent + "." + tail) == |parent| + 1
  {
    var s := parent + "." + tail;
    if tail != [] {
      assert s[..|s| - 1] == parent + "." + tail[..|tail| - 1];
      assert s[|s| - 1] == tail[|tail| - 1];
      LastDot(parent, tail[..|tail| - 1]);
    }
  }

  function ParseVlanInterfaceName(s: string): Option<VlanName> {
    var k := AfterLastDot(s);
    if k == 0 then None
    else
      var parent, tail := s[..k - 1], s[k..];
      var serviceTag := |tail| >= 2 && tail[|tail| - 2..] == "ad";
      match ParseInt(if serviceTag then tail[..|tail| - 2] else tail)
      case None => None
      case Some(id) => Some(VlanName(parent, serviceTag, id))
  }

  lemma PrintedIntHasNoLetters(i: int)
    ensures PrintInt(i) != []
    ensures forall k :: 0 <= k < |PrintInt(i)| ==> IsDigit(PrintInt(i)[k]) || PrintInt(i)[k] == '-'
  {
  }

  /** Every generated name can be read back, whatever the parent is called. */
  lemma ParseGeneratedName(v: EgressVlanInterface)
    ensures ParseVlanInterfaceName(VlanInterfaceName(v)) == Some(VlanName(v.name, v.protocol == "802.1ad", v.id))
  {
    var number := PrintInt(v.id);
    PrintedIntHasNoLetters(v.id);
    var tail := if IsServiceTag(v) then number + "ad" else number;
    var s := VlanInterfaceName(v);
    assert s == v.name + "." + tail;
    LastDot(v.name, tail);
    assert s[..|v.name|] == v.name;
    assert s[|v.name| + 1..] == tail;
    if IsServiceTag(v) {
      assert tail[..|tail| - 2] == number;
      assert tail[|tail| - 2..] == "ad";
    } else if |tail| >= 2 {
      assert tail[|tail| - 2..][0] != 'a';
    }
    ParsePrintedInt(v.id);
  }

  /** Two entries share a link name exactly when they agree on parent, id and on being 802.1ad. */
  lemma SameNameIff(v: EgressVlanInterface, w: EgressVlanInterface)
    ensures VlanInterfaceName(v) == VlanInterfaceName(w)
            <==> && v.name == w.name && v.id == w.id
                 && (v.protocol == "802.1ad" <==> w.protocol == "802.1ad")
  {
    ParseGeneratedName(v);
    ParseGeneratedName(w);
  }
}
