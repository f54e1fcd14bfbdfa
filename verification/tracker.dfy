/**
 The change tracker: a compressed log of configuration events, from which a map of configurations is
 brought up to date. It is compared with replaying every event.
 */
module Tracker {
  import opened Configuration

  datatype NamespacedName = NamespacedName(namespace: string, name: string)

  type ConfMap = map<NamespacedName, BridgeConfiguration>

  /** The maps a change holds are empty (nil in the daemon, for an absent configuration) or have one entry. */
  datatype Change = Change(previous: ConfMap, current: ConfMap)

  type Items = map<NamespacedName, Change>

  function KeyOf(conf: BridgeConfiguration): NamespacedName {
    NamespacedName(conf.namespace, conf.name)
  }

  function ToMap(conf: Option<BridgeConfiguration>): ConfMap {
    match conf
    case None => map[]
    case Some(c) => map[KeyOf(c) := c]
  }

  // ----- Recording an event -----

  function Record(items: Items, key: NamespacedName, previous: Option<BridgeConfiguration>,
                  current: Option<BridgeConfiguration>): Items
  {
    var change := Change(if key in items then items[key].previous else ToMap(previous), ToMap(current));
    if change.previous == change.current then items - {key} else items[key := change]
  }

  function ItemsAfter(items: Items, previous: Option<BridgeConfiguration>,
                      current: Option<BridgeConfiguration>): Items
  {
    if current.Some? then Record(items, KeyOf(current.value), previous, current)
    else if previous.Some? then Record(items, KeyOf(previous.value), previous, current)
    else items
  }

  // ----- Applying the recorded changes -----

  function ApplyChange(base: ConfMap, change: Change): ConfMap {
    (base - change.previous.Keys) + change.current
  }

  /** The changes applied one after the other, in the given order of keys. */
  function ApplyInOrder(base: ConfMap, items: Items, order: seq<NamespacedName>): ConfMap
    requires forall k :: k in order ==> k in items
  {
    if order == [] then base
    else ApplyChange(ApplyInOrder(base, items, order[..|order| - 1]), items[order[|order| - 1]])
  }

  ghost predicate Enumerates(order: seq<NamespacedName>, keys: set<NamespacedName>) {
    && (forall k :: k in order <==> k in keys)
    && (forall i, j :: 0 <= i < j < |order| ==> order[i] != order[j])
  }

  lemma Cancelled(items: Items, key: NamespacedName, change: Change)
    ensures items[key := change] - {key} == items - {key}
  {
  }

  class BridgeConfChangeTracker {
    var items: Items

    constructor ()
      ensures items == map[]
    {
      items := map[];
    }

    /** The result is true for every event, even when nothing is left pending. */
    method Update(previous: Option<BridgeConfiguration>, current: Option<BridgeConfiguration>) returns (changed: bool)
      modifies this
      ensures items == ItemsAfter(old(items), previous, current)
      ensures changed <==> previous.Some? || current.Some?
    {
      var conf := current;
      if conf.None? {
        conf := previous;
      }
      if conf.None? {
        return false;
      }
      var key := KeyOf(conf.value);
      assert ItemsAfter(items, previous, current) == Record(items, key, previous, current);
      var change := if key in items then items[key] else Change(ToMap(previous), map[]);
      change := change.(current := ToMap(current));
      Cancelled(items, key, change);
      items := items[key := change];
      if change.previous == change.current {
        items := items - {key};
      }
      return |items| >= 0;
    }
  }

  class BridgeConfMap {
    var entries: ConfMap

    constructor ()
      ensures entries == map[]
    {
      entries := map[];
    }

    method Merge(other: ConfMap)
      modifies this
      ensures entries == old(entries) + other
    {
      var todo := other.Keys;
      while todo != {}
        invariant todo <= other.Keys
        invariant entries == old(entries) + map k | k in other && k !in todo :: other[k]
      {
        var key :| key in todo;
        todo := todo - {key};
        entries := entries[key := other[key]];
      }
    }

    method Unmerge(other: ConfMap)
      modifies this
      ensures entries == old(entries) - other.Keys
    {
      var todo := other.Keys;
      while todo != {}
        invariant todo <= other.Keys
        invariant entries == old(entries) - (other.Keys - todo)
      {
        var key :| key in todo;
        todo := todo - {key};
        entries := entries - {key};
      }
    }

    /** The pending changes are visited in whatever order the map yields them; `order` reports it. */
    method Apply(changes: BridgeConfChangeTracker) returns (ghost order: seq<NamespacedName>)
      modifies this, changes
      ensures Enumerates(order, old(changes.items).Keys)
      ensures entries == ApplyInOrder(old(entries), old(changes.items), order)
      ensures changes.items == map[]
    {
      var items := changes.items;
      var todo := items.Keys;
      order := [];
      while todo != {}
        invariant todo <= items.Keys && changes.items == items
        invariant Enumerates(order, items.Keys - todo)
        invariant entries == ApplyInOrder(old(entries), items, order)
      {
        var key :| key in todo;
        todo := todo - {key};
        Unmerge(items[key].previous);
        Merge(items[key].current);
        ghost var next := order + [key];
        assert next[..|order|] == order;
        order := next;
      }
      changes.items := map[];
    }
  }

  // ----- When the order of application matters -----

  /** What one change does to one entry. */
  datatype Effect = Nothing | Removed | Put(conf: BridgeConfiguration)

  function EffectOn(change: Change, key: NamespacedName): Effect {
    if key in change.current then Put(change.current[key])
    else if key in change.previous then Removed
    else Nothing
  }

  function Entry(m: ConfMap, key: NamespacedName): Option<BridgeConfiguration> {
    if key in m then Some(m[key]) else None
  }

  function After(entry: Option<BridgeConfiguration>, effect: Effect): Option<BridgeConfiguration> {
    match effect
    case Nothing => entry
    case Removed => None
    case Put(c) => Some(c)
  }

  /** Changes that both have an effect on an entry have the same effect. */
  ghost predicate Agreeing(items: Items) {
    forall k, l, x :: k in items && l in items && EffectOn(items[k], x) != Nothing && EffectOn(items[l], x) != Nothing
                      ==> EffectOn(items[k], x) == EffectOn(items[l], x)
  }

  lemma ApplyLast(base: ConfMap, items: Items, order: seq<NamespacedName>, x: NamespacedName)
    requires order != [] && forall k :: k in order ==> k in items
    ensures Entry(ApplyInOrder(base, items, order), x)
            == After(Entry(ApplyInOrder(base, items, order[..|order| - 1]), x), EffectOn(items[order[|order| - 1]], x))
  {
  }

  /** Entries nobody has an effect on stay; an entry somebody has an effect on shows the effect, if changes agree. */
  lemma {:induction false} AppliedEntry(base: ConfMap, items: Items, order: seq<NamespacedName>, x: NamespacedName)
    requires Agreeing(items) && forall k :: k in order ==> k in items
    ensures (forall k :: k in order ==> EffectOn(items[k], x) == Nothing) ==>
              Entry(ApplyInOrder(base, items, order), x) == Entry(base, x)
    ensures forall k :: k in order && EffectOn(items[k], x) != Nothing ==>
              Entry(ApplyInOrder(base, items, order), x) == After(None, EffectOn(items[k], x))
  {
    if order != [] {
      var front, last := order[..|order| - 1], order[|order| - 1];
      assert order == front + [last];
      AppliedEntry(base, items, front, x);
      ApplyLast(base, items, order, x);
    }
  }

  lemma SameEntries(a: ConfMap, b: ConfMap)
    requires forall x :: Entry(a, x) == Entry(b, x)
    ensures a == b
  {
    assert forall x :: x in a <==> Entry(a, x).Some?;
    assert forall x :: x in b <==> Entry(b, x).Some?;
    forall x | x in a
      ensures x in b && a[x] == b[x]
    {
      assert Entry(a, x) == Entry(b, x);
    }
    forall x | x in b
      ensures x in a
    {
      assert Entry(a, x) == Entry(b, x);
    }
  }

  lemma AgreeingInAnyOrder(base: ConfMap, items: Items, order: seq<NamespacedName>, order': seq<NamespacedName>)
    requires Agreeing(items) && Enumerates(order, items.Keys) && Enumerates(order', items.Keys)
    ensures ApplyInOrder(base, items, order) == ApplyInOrder(base, items, order')
  {
    var a, b := ApplyInOrder(base, items, order), ApplyInOrder(base, items, order');
    forall x
      ensures Entry(a, x) == Entry(b, x)
    {
      AppliedEntry(base, items, order, x);
      AppliedEntry(base, items, order', x);
      if k :| k in items && EffectOn(items[k], x) != Nothing {
        assert k in order && k in order';
      }
    }
    SameEntries(a, b);
  }

  lemma {:induction false} Listing(keys: set<NamespacedName>) returns (order: seq<NamespacedName>)
    ensures Enumerates(order, keys)
  {
    if keys == {} {
      order := [];
    } else {
      var k :| k in keys;
      var rest := Listing(keys - {k});
      order := rest + [k];
    }
  }

  ghost predicate OrderIrrelevant(items: Items) {
    forall base: ConfMap, order, order' :: Enumerates(order, items.Keys) && Enumerates(order', items.Keys) ==>
      ApplyInOrder(base, items, order) == ApplyInOrder(base, items, order')
  }

  lemma DisagreementShows(items: Items, rest: seq<NamespacedName>, k: NamespacedName, l: NamespacedName,
                          x: NamespacedName)
    requires k in items && l in items && forall r :: r in rest ==> r in items
    requires EffectOn(items[k], x) != Nothing && EffectOn(items[l], x) != Nothing
    requires EffectOn(items[k], x) != EffectOn(items[l], x)
    ensures ApplyInOrder(map[], items, rest + [k, l]) != ApplyInOrder(map[], items, rest + [l, k])
  {
    var order, order' := rest + [k, l], rest + [l, k];
    ApplyLast(map[], items, order, x);
    ApplyLast(map[], items, order', x);
    assert Entry(ApplyInOrder(map[], items, order), x) != Entry(ApplyInOrder(map[], items, order'), x);
  }

  lemma TwoLast(keys: set<NamespacedName>, rest: seq<NamespacedName>, k: NamespacedName, l: NamespacedName)
    requires k in keys && l in keys && k != l && Enumerates(rest, keys - {k, l})
    ensures Enumerates(rest + [k, l], keys)
  {
    assert forall r :: r in rest ==> r != k && r != l;
  }

  lemma AgreeingIsIrrelevant(items: Items)
    requires Agreeing(items)
    ensures OrderIrrelevant(items)
  {
    forall base: ConfMap, order, order' | Enumerates(order, items.Keys) && Enumerates(order', items.Keys)
      ensures ApplyInOrder(base, items, order) == ApplyInOrder(base, items, order')
    {
      AgreeingInAnyOrder(base, items, order, order');
    }
  }

  lemma DifferentOutcomes(items: Items, base: ConfMap, order: seq<NamespacedName>, order': seq<NamespacedName>)
    requires Enumerates(order, items.Keys) && Enumerates(order', items.Keys)
    requires ApplyInOrder(base, items, order) != ApplyInOrder(base, items, order')
    ensures !OrderIrrelevant(items)
  {
  }

  lemma DisagreeingIsRelevant(items: Items, k: NamespacedName, l: NamespacedName, x: NamespacedName)
    requires k in items && l in items
    requires EffectOn(items[k], x) != Nothing && EffectOn(items[l], x) != Nothing
    requires EffectOn(items[k], x) != EffectOn(items[l], x)
    ensures !OrderIrrelevant(items)
  {
    var rest := Listing(items.Keys - {k, l});
    TwoLast(items.Keys, rest, k, l);
    assert {k, l} == {l, k};
    TwoLast(items.Keys, rest, l, k);
    DisagreementShows(items, rest, k, l, x);
    DifferentOutcomes(items, map[], rest + [k, l], rest + [l, k]);
  }

  /** The order in which pending changes are applied does not matter exactly when they agree. */
  lemma OrderIrrelevantIff(items: Items)
    ensures OrderIrrelevant(items) <==> Agreeing(items)
  {
    if Agreeing(items) {
      AgreeingIsIrrelevant(items);
    } else {
      var k, l, x :| k in items && l in items && EffectOn(items[k], x) != Nothing && EffectOn(items[l], x) != Nothing
                     && EffectOn(items[k], x) != EffectOn(items[l], x);
      DisagreeingIsRelevant(items, k, l, x);
    }
  }

  /** A name given up in a rename and taken again: the order in which the two changes are applied decides its entry. */
  lemma RenameMakesOrderMatter(a: BridgeConfiguration, b: BridgeConfiguration, again: BridgeConfiguration)
    requires KeyOf(a) != KeyOf(b) && KeyOf(again) == KeyOf(a)
    ensures !OrderIrrelevant(ItemsAfter(ItemsAfter(map[], Some(a), Some(b)), None, Some(again)))
  {
    var renamed := Change(ToMap(Some(a)), ToMap(Some(b)));
    assert KeyOf(a) in renamed.previous && KeyOf(a) !in renamed.current;
    var taken := Change(ToMap(None), ToMap(Some(again)));
    assert KeyOf(a) in taken.current;
    var items := ItemsAfter(ItemsAfter(map[], Some(a), Some(b)), None, Some(again));
    assert items[KeyOf(b)] == renamed && items[KeyOf(a)] == taken;
    assert EffectOn(renamed, KeyOf(a)) == Removed;
    OrderIrrelevantIff(items);
  }

  // ----- The tracker against direct replay -----

  datatype Operation =
    | Event(previous: Option<BridgeConfiguration>, current: Option<BridgeConfiguration>)
    | Applied

  /** The live map: every event carried out at once. */
  function Replay(live: ConfMap, e: Operation): ConfMap {
    match e
    case Applied => live
    case Event(previous, current) => ApplyChange(live, Change(ToMap(previous), ToMap(current)))
  }

  function ReplayAll(live: ConfMap, ops: seq<Operation>): ConfMap {
    if ops == [] then live else Replay(ReplayAll(live, ops[..|ops| - 1]), ops[|ops| - 1])
  }

  /** An event concerns one name, before and after. */
  predicate KeepsName(e: Operation) {
    e.Event? ==> (e.previous.Some? && e.current.Some? ==> KeyOf(e.previous.value) == KeyOf(e.current.value))
  }

  predicate Concerns(e: Operation, key: NamespacedName) {
    && e.Event? && KeepsName(e)
    && (e.previous.Some? || e.current.Some?)
    && (e.previous.Some? ==> KeyOf(e.previous.value) == key)
    && (e.current.Some? ==> KeyOf(e.current.value) == key)
  }

  /** The event reports as previous what is known of its name. */
  predicate Consistent(live: ConfMap, e: Operation) {
    e.Event? ==>
      && KeepsName(e)
      && (e.previous.Some? ==> KeyOf(e.previous.value) in live && live[KeyOf(e.previous.value)] == e.previous.value)
      && (e.previous.None? && e.current.Some? ==> KeyOf(e.current.value) !in live)
  }

  ghost predicate ConsistentHistory(live: ConfMap, ops: seq<Operation>) {
    forall i :: 0 <= i < |ops| ==> Consistent(ReplayAll(live, ops[..i]), ops[i])
  }

  function Slot(m: ConfMap, key: NamespacedName): ConfMap {
    if key in m then map[key := m[key]] else map[]
  }

  /** The changes that lead from one map to another, one for every entry in which they differ. */
  function Difference(base: ConfMap, live: ConfMap): Items {
    map k | k in base.Keys + live.Keys && Slot(base, k) != Slot(live, k) :: Change(Slot(base, k), Slot(live, k))
  }

  /** The base with every pending change laid over it. */
  function Overlay(base: ConfMap, items: Items): ConfMap {
    map k | k in base.Keys + items.Keys && (k in items ==> k in items[k].current)
          :: if k in items then items[k].current[k] else base[k]
  }

  /** Every pending change concerns only the name it is filed under. */
  ghost predicate NameKeeping(items: Items) {
    forall k :: k in items ==> items[k].previous.Keys <= {k} && items[k].current.Keys <= {k}
  }

  /** A map and a tracker driven by the same operations; changes are applied in the order `order` prescribes. */
  datatype State = State(base: ConfMap, items: Items)

  ghost predicate StepTo(s: State, e: Operation, after: State) {
    match e
    case Event(previous, current) => after == State(s.base, ItemsAfter(s.items, previous, current))
    case Applied =>
      after.items == map[]
      && exists order :: Enumerates(order, s.items.Keys) && after.base == ApplyInOrder(s.base, s.items, order)
  }

  ghost predicate Execution(states: seq<State>, ops: seq<Operation>) {
    |states| == |ops| + 1 && forall i :: 0 <= i < |ops| ==> StepTo(states[i], ops[i], states[i + 1])
  }

  lemma NameKeepingAgrees(items: Items)
    requires NameKeeping(items)
    ensures Agreeing(items)
  {
    forall k, x | k in items && EffectOn(items[k], x) != Nothing
      ensures k == x
    {
    }
  }

  lemma AppliedEntryIsOverlaid(base: ConfMap, items: Items, order: seq<NamespacedName>, x: NamespacedName)
    requires NameKeeping(items) && Agreeing(items) && Enumerates(order, items.Keys)
    requires x in items ==> items[x].previous != items[x].current
    ensures Entry(ApplyInOrder(base, items, order), x) == Entry(Overlay(base, items), x)
  {
    AppliedEntry(base, items, order, x);
    if x in items {
      assert x in order;
      assert EffectOn(items[x], x) != Nothing;
    } else {
      forall k | k in order
        ensures EffectOn(items[k], x) == Nothing
      {
      }
    }
  }

  lemma AppliedIsOverlay(base: ConfMap, items: Items, order: seq<NamespacedName>)
    requires NameKeeping(items) && Enumerates(order, items.Keys)
    requires forall k :: k in items ==> items[k].previous != items[k].current
    ensures ApplyInOrder(base, items, order) == Overlay(base, items)
  {
    NameKeepingAgrees(items);
    forall x
      ensures Entry(ApplyInOrder(base, items, order), x) == Entry(Overlay(base, items), x)
    {
      AppliedEntryIsOverlaid(base, items, order, x);
    }
    SameEntries(ApplyInOrder(base, items, order), Overlay(base, items));
  }

  /** Every pending change concerns its own name and says something. */
  ghost predicate Tidy(items: Items) {
    NameKeeping(items) && forall k :: k in items ==> items[k].previous != items[k].current
  }

  lemma EventKeepsTidy(items: Items, e: Operation)
    requires e.Event? && KeepsName(e) && Tidy(items)
    ensures Tidy(ItemsAfter(items, e.previous, e.current))
  {
  }

  lemma {:induction false} TidyThroughout(states: seq<State>, ops: seq<Operation>, i: nat)
    requires Execution(states, ops) && i < |states| && states[0].items == map[]
    requires forall e :: e in ops ==> KeepsName(e)
    ensures Tidy(states[i].items)
  {
    if i > 0 {
      TidyThroughout(states, ops, i - 1);
      assert StepTo(states[i - 1], ops[i - 1], states[i - 1 + 1]);
      if ops[i - 1].Event? {
        EventKeepsTidy(states[i - 1].items, ops[i - 1]);
      }
    }
  }

  /**
   After any history of events that keep their name, consistent or not, with applications anywhere in between,
   what is pending may be applied in any order.
   */
  lemma AnyOrderAfterKeptNames(states: seq<State>, ops: seq<Operation>, i: nat, base: ConfMap,
                               order: seq<NamespacedName>, order': seq<NamespacedName>)
    requires Execution(states, ops) && i < |states| && states[0].items == map[]
    requires forall e :: e in ops ==> KeepsName(e)
    requires Enumerates(order, states[i].items.Keys) && Enumerates(order', states[i].items.Keys)
    ensures ApplyInOrder(base, states[i].items, order) == ApplyInOrder(base, states[i].items, order')
    ensures ApplyInOrder(base, states[i].items, order) == Overlay(base, states[i].items)
  {
    TidyThroughout(states, ops, i);
    AppliedIsOverlay(base, states[i].items, order);
    AppliedIsOverlay(base, states[i].items, order');
  }

  lemma OverlayOfDifference(base: ConfMap, live: ConfMap)
    ensures NameKeeping(Difference(base, live))
    ensures Overlay(base, Difference(base, live)) == live
  {
    var items := Difference(base, live);
    var overlay := Overlay(base, items);
    forall x
      ensures Entry(overlay, x) == Entry(live, x)
    {
      if x !in items && (x in base || x in live) {
        assert Slot(base, x) == Slot(live, x);
        assert x in Slot(base, x) <==> x in Slot(live, x);
        assert x in base ==> Slot(base, x)[x] == Slot(live, x)[x];
      }
    }
    SameEntries(overlay, live);
  }

  /** The same, entry by entry. */
  ghost predicate Pending(items: Items, base: ConfMap, live: ConfMap) {
    forall k ::
      && (k in items <==> Slot(base, k) != Slot(live, k))
      && (k in items ==> items[k] == Change(Slot(base, k), Slot(live, k)))
  }

  lemma PendingIff(items: Items, base: ConfMap, live: ConfMap)
    ensures Pending(items, base, live) <==> items == Difference(base, live)
  {
    forall k
      ensures k in Difference(base, live) <==> Slot(base, k) != Slot(live, k)
    {
      if k !in base && k !in live {
        assert Slot(base, k) == Slot(live, k);
      }
    }
  }

  lemma ReplayedSlots(live: ConfMap, e: Operation, key: NamespacedName, k: NamespacedName)
    requires Concerns(e, key)
    ensures Slot(Replay(live, e), k) == if k == key then ToMap(e.current) else Slot(live, k)
  {
  }

  lemma RecordKeepsPending(items: Items, base: ConfMap, live: ConfMap, next: ConfMap, key: NamespacedName,
                           previous: Option<BridgeConfiguration>, current: Option<BridgeConfiguration>)
    requires Pending(items, base, live)
    requires key in items || Slot(base, key) == ToMap(previous)
    requires forall k :: Slot(next, k) == if k == key then ToMap(current) else Slot(live, k)
    ensures Pending(Record(items, key, previous, current), base, next)
  {
    var after := Record(items, key, previous, current);
    assert (if key in items then items[key].previous else ToMap(previous)) == Slot(base, key);
    forall k
      ensures k in after <==> Slot(base, k) != Slot(next, k)
      ensures k in after ==> after[k] == Change(Slot(base, k), Slot(next, k))
    {
      assert k != key ==> (k in after <==> k in items) && (k in after ==> after[k] == items[k]);
    }
  }

  /** Recording a consistent event keeps exactly the difference pending. */
  lemma EventKeepsPending(items: Items, base: ConfMap, live: ConfMap, e: Operation)
    requires e.Event? && Consistent(live, e) && Pending(items, base, live)
    ensures Pending(ItemsAfter(items, e.previous, e.current), base, Replay(live, e))
  {
    if e.previous.None? && e.current.None? {
      assert Replay(live, e) == live;
    } else {
      var key := KeyOf(if e.current.Some? then e.current.value else e.previous.value);
      assert ToMap(e.previous) == Slot(live, key);
      forall k {
        ReplayedSlots(live, e, key, k);
      }
      RecordKeepsPending(items, base, live, Replay(live, e), key, e.previous, e.current);
    }
  }

  lemma ApplyLeavesNothingPending(items: Items, base: ConfMap, live: ConfMap, order: seq<NamespacedName>)
    requires Pending(items, base, live) && Enumerates(order, items.Keys)
    ensures ApplyInOrder(base, items, order) == live
    ensures Pending(map[], live, live)
  {
    PendingIff(items, base, live);
    OverlayOfDifference(base, live);
    AppliedIsOverlay(base, items, order);
  }

  /**
   Over any interleaving of events and applications of a consistent history, the base overridden by what is
   pending is the live map, and what is pending is exactly the difference between the two.
   */
  lemma {:induction false} Simulation(states: seq<State>, ops: seq<Operation>, i: nat)
    requires Execution(states, ops) && i < |states|
    requires states[0].items == map[] && ConsistentHistory(states[0].base, ops)
    ensures var live := ReplayAll(states[0].base, ops[..i]);
            && Pending(states[i].items, states[i].base, live)
            && states[i].items == Difference(states[i].base, live)
            && Overlay(states[i].base, states[i].items) == live
  {
    var start := states[0].base;
    if i > 0 {
      Simulation(states, ops, i - 1);
      var s, e, live := states[i - 1], ops[i - 1], ReplayAll(start, ops[..i - 1]);
      assert StepTo(s, e, states[i - 1 + 1]);
      assert ops[..i][..i - 1] == ops[..i - 1];
      assert Consistent(live, e);
      match e {
        case Event(_, _) => EventKeepsPending(s.items, s.base, live, e);
        case Applied =>
          var order :| Enumerates(order, s.items.Keys) && states[i].base == ApplyInOrder(s.base, s.items, order);
          ApplyLeavesNothingPending(s.items, s.base, live, order);
      }
    }
    PendingIff(states[i].items, states[i].base, ReplayAll(start, ops[..i]));
    OverlayOfDifference(states[i].base, ReplayAll(start, ops[..i]));
  }

  /** A history that comes back to the base leaves nothing pending. */
  lemma NothingPendingAtBase(states: seq<State>, ops: seq<Operation>, i: nat)
    requires Execution(states, ops) && i < |states|
    requires states[0].items == map[] && ConsistentHistory(states[0].base, ops)
    ensures states[i].items == map[] <==> ReplayAll(states[0].base, ops[..i]) == states[i].base
  {
    Simulation(states, ops, i);
    var live, s := ReplayAll(states[0].base, ops[..i]), states[i];
    if s.items == map[] {
      assert Overlay(s.base, map[]) == s.base;
    }
  }

  function EventsOf(ops: seq<Operation>): seq<Operation> {
    if ops == [] then []
    else
      var front := EventsOf(ops[..|ops| - 1]);
      if ops[|ops| - 1].Applied? then front else front + [ops[|ops| - 1]]
  }

  lemma {:induction false} OnlyEventsMatter(live: ConfMap, ops: seq<Operation>)
    ensures ReplayAll(live, ops) == ReplayAll(live, EventsOf(ops))
  {
    if ops != [] {
      OnlyEventsMatter(live, ops[..|ops| - 1]);
      var front := EventsOf(ops[..|ops| - 1]);
      assert (front + [ops[|ops| - 1]])[..|front|] == front;
    }
  }

  /** After a final application the map is the same wherever earlier applications fell between the same events. */
  lemma BatchingIrrelevant(states: seq<State>, ops: seq<Operation>, states': seq<State>, ops': seq<Operation>)
    requires Execution(states, ops) && Execution(states', ops')
    requires states[0] == states'[0] && states[0].items == map[]
    requires ConsistentHistory(states[0].base, ops) && ConsistentHistory(states[0].base, ops')
    requires EventsOf(ops) == EventsOf(ops')
    requires ops != [] && ops[|ops| - 1] == Applied && ops' != [] && ops'[|ops'| - 1] == Applied
    ensures states[|ops|] == states'[|ops'|]
    ensures states[|ops|].base == ReplayAll(states[0].base, EventsOf(ops))
  {
    FinalApplication(states, ops);
    FinalApplication(states', ops');
    OnlyEventsMatter(states[0].base, ops);
    OnlyEventsMatter(states[0].base, ops');
  }

  lemma FinalApplication(states: seq<State>, ops: seq<Operation>)
    requires Execution(states, ops) && states[0].items == map[] && ConsistentHistory(states[0].base, ops)
    requires ops != [] && ops[|ops| - 1] == Applied
    ensures states[|ops|] == State(ReplayAll(states[0].base, ops), map[])
  {
    assert StepTo(states[|ops| - 1], ops[|ops| - 1], states[|ops| - 1 + 1]);
    assert ops[..|ops|] == ops;
    Simulation(states, ops, |ops|);
    NothingPendingAtBase(states, ops, |ops|);
  }

  // ----- What a name is -----

  /** Configurations are filed under namespace and name: two that differ in either are entries of their own. */
  lemma FiledApart(a: BridgeConfiguration, b: BridgeConfiguration)
    requires a.namespace != b.namespace || a.name != b.name
    ensures ReplayAll(map[], [Event(None, Some(a)), Event(None, Some(b))])
            == map[NamespacedName(a.namespace, a.name) := a, NamespacedName(b.namespace, b.name) := b]
  {
    var first, second := Event(None, Some(a)), Event(None, Some(b));
    assert [first, second][..1] == [first] && [first][..0] == [];
    var live := map[NamespacedName(a.namespace, a.name) := a];
    assert Replay(map[], first) == live;
    assert ReplayAll(map[], [first]) == live;
    assert Replay(live, second) == live[NamespacedName(b.namespace, b.name) := b];
  }

  lemma BothPending(a: BridgeConfiguration, b: BridgeConfiguration)
    requires a.namespace != b.namespace || a.name != b.name
    ensures var k, l := NamespacedName(a.namespace, a.name), NamespacedName(b.namespace, b.name);
            ItemsAfter(ItemsAfter(map[], None, Some(a)), None, Some(b))
            == map[k := Change(map[], map[k := a]), l := Change(map[], map[l := b])]
  {
    var k, l := NamespacedName(a.namespace, a.name), NamespacedName(b.namespace, b.name);
    assert a == map[k := a][k] && b == map[l := b][l];
    assert ItemsAfter(map[], None, Some(a)) == map[k := Change(map[], map[k := a])];
  }

  /** So are the changes pending for them, in whatever order they are applied. */
  lemma PendingApart(a: BridgeConfiguration, b: BridgeConfiguration, order: seq<NamespacedName>)
    requires a.namespace != b.namespace || a.name != b.name
    requires Enumerates(order, ItemsAfter(ItemsAfter(map[], None, Some(a)), None, Some(b)).Keys)
    ensures ApplyInOrder(map[], ItemsAfter(ItemsAfter(map[], None, Some(a)), None, Some(b)), order)
            == map[NamespacedName(a.namespace, a.name) := a, NamespacedName(b.namespace, b.name) := b]
  {
    BothPending(a, b);
    LaidOut(NamespacedName(a.namespace, a.name), a, NamespacedName(b.namespace, b.name), b, order);
  }

  lemma LaidOut(k: NamespacedName, a: BridgeConfiguration, l: NamespacedName, b: BridgeConfiguration,
                order: seq<NamespacedName>)
    requires k != l
    requires Enumerates(order, {k, l})
    ensures var items := map[k := Change(map[], map[k := a]), l := Change(map[], map[l := b])];
            ApplyInOrder(map[], items, order) == map[k := a, l := b]
  {
    var items := map[k := Change(map[], map[k := a]), l := Change(map[], map[l := b])];
    assert items.Keys == {k, l} && k in map[k := a] && l in map[l := b];
    AppliedIsOverlay(map[], items, order);
    assert Overlay(map[], items) == map[k := a, l := b];
  }

  // ----- Inconsistent events -----

  lemma OverlaidSlot(base: ConfMap, items: Items, k: NamespacedName)
    ensures Slot(Overlay(base, items), k) == if k in items then Slot(items[k].current, k) else Slot(base, k)
  {
  }

  lemma RecordedSlots(items: Items, base: ConfMap, key: NamespacedName, previous: Option<BridgeConfiguration>,
                      current: Option<BridgeConfiguration>, k: NamespacedName)
    requires k != key
    ensures Slot(Overlay(base, Record(items, key, previous, current)), k) == Slot(Overlay(base, items), k)
  {
    var next := Record(items, key, previous, current);
    OverlaidSlot(base, items, k);
    OverlaidSlot(base, next, k);
    assert k in next <==> k in items;
    assert k in items ==> next[k] == items[k];
  }

  /** Maps that have the same entries everywhere else are equal exactly when they agree on one entry. */
  lemma SlotsDecide(a: ConfMap, b: ConfMap, key: NamespacedName)
    requires forall k :: k != key ==> Slot(a, k) == Slot(b, k)
    ensures a == b <==> Slot(a, key) == Slot(b, key)
  {
    if Slot(a, key) == Slot(b, key) {
      forall x
        ensures Entry(a, x) == Entry(b, x)
      {
        assert Slot(a, x) == Slot(b, x);
        assert x in Slot(a, x) <==> x in Slot(b, x);
        assert x in a ==> Slot(a, x)[x] == Slot(b, x)[x];
      }
      SameEntries(a, b);
    }
  }

  /** What the tracker takes a name to have been at its last application. */
  function Was(items: Items, key: NamespacedName, previous: Option<BridgeConfiguration>): ConfMap {
    if key in items then items[key].previous else ToMap(previous)
  }

  /** The test: the event leaves a change pending, or none is needed. */
  predicate Followed(base: ConfMap, items: Items, e: Operation, key: NamespacedName)
    requires e.Event?
  {
    Was(items, key, e.previous) != ToMap(e.current) || Slot(base, key) == ToMap(e.current)
  }

  lemma RecordedSlot(items: Items, base: ConfMap, e: Operation, key: NamespacedName)
    requires Concerns(e, key)
    ensures Slot(Overlay(base, Record(items, key, e.previous, e.current)), key) == ToMap(e.current)
            <==> Followed(base, items, e, key)
  {
    OverlaidSlot(base, Record(items, key, e.previous, e.current), key);
    assert Slot(ToMap(e.current), key) == ToMap(e.current);
  }

  /**
   Recording an event is as good as carrying it out exactly when the test holds, whatever is pending and whatever
   the event says, provided the other names are in step.
   */
  lemma EventIsFollowedIff(items: Items, base: ConfMap, live: ConfMap, e: Operation, key: NamespacedName)
    requires Concerns(e, key)
    requires forall k :: k != key ==> Slot(Overlay(base, items), k) == Slot(live, k)
    ensures Overlay(base, ItemsAfter(items, e.previous, e.current)) == Replay(live, e)
            <==> Followed(base, items, e, key)
  {
    var next := Record(items, key, e.previous, e.current);
    assert next == ItemsAfter(items, e.previous, e.current);
    forall k | k != key
      ensures Slot(Overlay(base, next), k) == Slot(Replay(live, e), k)
    {
      ReplayedSlots(live, e, key, k);
      RecordedSlots(items, base, key, e.previous, e.current, k);
    }
    ReplayedSlots(live, e, key, key);
    RecordedSlot(items, base, e, key);
    SlotsDecide(Overlay(base, next), Replay(live, e), key);
  }

  /**
   The last of the first i operations that concerns the name passed the test when it was recorded, or there was none.
   */
  ghost predicate InStep(states: seq<State>, ops: seq<Operation>, i: nat, key: NamespacedName)
    requires |states| == |ops| + 1 && i < |states|
  {
    i > 0 ==> if Concerns(ops[i - 1], key)
              then Followed(states[i - 1].base, states[i - 1].items, ops[i - 1], key)
              else InStep(states, ops, i - 1, key)
  }

  lemma OverlayOfNothing(base: ConfMap)
    ensures Overlay(base, map[]) == base
  {
  }

  lemma OtherNamesStay(items: Items, base: ConfMap, live: ConfMap, e: Operation, key: NamespacedName)
    requires e.Event? && KeepsName(e) && !Concerns(e, key)
    ensures Slot(Overlay(base, ItemsAfter(items, e.previous, e.current)), key) == Slot(Overlay(base, items), key)
    ensures Slot(Replay(live, e), key) == Slot(live, key)
  {
    if e.previous.Some? || e.current.Some? {
      var other := KeyOf(if e.current.Some? then e.current.value else e.previous.value);
      assert Concerns(e, other);
      ReplayedSlots(live, e, other, key);
      RecordedSlots(items, base, other, e.previous, e.current, key);
    }
  }

  /** Base and pending changes say of the name what the live map says. */
  ghost predicate AgreesOn(s: State, live: ConfMap, key: NamespacedName) {
    Slot(Overlay(s.base, s.items), key) == Slot(live, key)
  }

  lemma AppliedAgrees(s: State, after: State, live: ConfMap, key: NamespacedName)
    requires StepTo(s, Applied, after) && Tidy(s.items)
    ensures AgreesOn(after, live, key) <==> AgreesOn(s, live, key)
  {
    var order :| Enumerates(order, s.items.Keys) && after.base == ApplyInOrder(s.base, s.items, order);
    AppliedIsOverlay(s.base, s.items, order);
    OverlayOfNothing(after.base);
  }

  /** One operation of the tracker and the same operation replayed. */
  lemma StepAgreesIff(s: State, e: Operation, after: State, live: ConfMap, key: NamespacedName)
    requires StepTo(s, e, after) && Tidy(s.items) && KeepsName(e)
    ensures AgreesOn(after, Replay(live, e), key)
            <==> if Concerns(e, key) then Followed(s.base, s.items, e, key) else AgreesOn(s, live, key)
  {
    if e.Applied? {
      AppliedAgrees(s, after, live, key);
    } else if Concerns(e, key) {
      ReplayedSlots(live, e, key, key);
      RecordedSlot(s.items, s.base, e, key);
    } else {
      OtherNamesStay(s.items, s.base, live, e, key);
    }
  }

  lemma ReplayNext(live: ConfMap, ops: seq<Operation>, i: nat)
    requires i < |ops|
    ensures ReplayAll(live, ops[..i + 1]) == Replay(ReplayAll(live, ops[..i]), ops[i])
  {
    assert ops[..i + 1][..i] == ops[..i];
  }

  /**
   Over any history of events that keep their name, consistent or not, with applications anywhere: what base and
   pending changes say of a name is what the replay says exactly when the last event of that name passed the test.
   */
  lemma {:induction false} InStepIff(states: seq<State>, ops: seq<Operation>, i: nat, key: NamespacedName)
    requires Execution(states, ops) && i < |states| && states[0].items == map[]
    requires forall e :: e in ops ==> KeepsName(e)
    ensures AgreesOn(states[i], ReplayAll(states[0].base, ops[..i]), key) <==> InStep(states, ops, i, key)
  {
    if i == 0 {
      OverlayOfNothing(states[0].base);
    } else {
      InStepIff(states, ops, i - 1, key);
      TidyThroughout(states, ops, i - 1);
      ReplayNext(states[0].base, ops, i - 1);
      assert StepTo(states[i - 1], ops[i - 1], states[i - 1 + 1]);
      StepAgreesIff(states[i - 1], ops[i - 1], states[i], ReplayAll(states[0].base, ops[..i - 1]), key);
    }
  }

  lemma SameSlotsIff(a: ConfMap, b: ConfMap)
    ensures a == b <==> forall k :: Slot(a, k) == Slot(b, k)
  {
    if forall k :: Slot(a, k) == Slot(b, k) {
      SlotsDecide(a, b, NamespacedName("", ""));
    }
  }

  /** So the whole maps agree exactly when every name is in step. */
  lemma AllInStepIff(states: seq<State>, ops: seq<Operation>, i: nat)
    requires Execution(states, ops) && i < |states| && states[0].items == map[]
    requires forall e :: e in ops ==> KeepsName(e)
    ensures Overlay(states[i].base, states[i].items) == ReplayAll(states[0].base, ops[..i])
            <==> forall key :: InStep(states, ops, i, key)
  {
    var overlay, live := Overlay(states[i].base, states[i].items), ReplayAll(states[0].base, ops[..i]);
    if overlay == live {
      forall key
        ensures InStep(states, ops, i, key)
      {
        InStepIff(states, ops, i, key);
      }
    } else {
      SameSlotsIff(overlay, live);
      var key :| Slot(overlay, key) != Slot(live, key);
      InStepIff(states, ops, i, key);
    }
  }

  /**
   For example, an event nobody expected, then one that takes it back. The first is followed; the second reports what
   is known of the name and its name has a change pending, and still it is lost: nothing is pending, the base stays
   empty, and the replay holds the entry.
   */
  lemma ConsistentEventLost(c: BridgeConfiguration, d: BridgeConfiguration)
    requires KeyOf(c) == KeyOf(d) && c != d
    ensures var first, second := Event(Some(c), Some(d)), Event(Some(d), Some(c));
            var items := ItemsAfter(map[], first.previous, first.current);
            && Overlay(map[], items) == Replay(map[], first)
            && Consistent(Replay(map[], first), second) && KeyOf(d) in items
            && ItemsAfter(items, second.previous, second.current) == map[]
            && ReplayAll(map[], [first, second]) == map[KeyOf(c) := c]
            && !Followed(map[], items, second, KeyOf(c))
  {
    var first, second, key := Event(Some(c), Some(d)), Event(Some(d), Some(c)), KeyOf(c);
    var items := ItemsAfter(map[], first.previous, first.current);
    assert ToMap(Some(c))[key] != ToMap(Some(d))[key];
    assert items == map[key := Change(ToMap(Some(c)), ToMap(Some(d)))];
    assert Replay(map[], first) == map[key := d];
    assert Overlay(map[], items) == map[key := d];
    assert [first, second][..1] == [first];
    assert [first][..0] == [];
    assert ReplayAll(map[], [first]) == Replay(map[], first);
  }
}
