/**
 The collector that keeps one accumulator per kind and group, and the conservation law between the
 all-groups accumulator of a kind and its per-group accumulators.
 */
module TimingCollector {
  import opened Options
  import opened Machine
  import opened StableSort
  import opened Ordering
  import opened BuildTiming

  datatype Key = Key(kind: string, group: Option<string>)
  datatype Entry = Entry(key: Key, unit: SlowUnit)

  /** The two ways callers record a unit. */
  datatype Op =
    | Record(kind: string, group: Option<string>, unit: SlowUnit)
    | RecordGrouped(kind: string, groupName: string, unit: SlowUnit)

  /** What one call adds to the aggregates. */
  function Entries(op: Op): seq<Entry> {
    match op
    case Record(kind, group, unit) => [Entry(Key(kind, group), unit)]
    case RecordGrouped(kind, group, unit) => [Entry(Key(kind, None), unit), Entry(Key(kind, Some(group)), unit)]
  }

  function LogOf(ops: seq<Op>): seq<Entry> {
    if ops == [] then [] else LogOf(ops[..|ops| - 1]) + Entries(ops[|ops| - 1])
  }

  function WithKey(k: Key): Entry -> bool {
    (e: Entry) => e.key == k
  }

  function UnitOf(e: Entry): SlowUnit {
    e.unit
  }

  /** The units recorded under a key, in order. */
  function HistoryOf(log: seq<Entry>, k: Key): seq<SlowUnit> {
    Map(Filter(log, WithKey(k)), UnitOf)
  }

  lemma HistoryAppend(a: seq<Entry>, b: seq<Entry>, k: Key)
    ensures HistoryOf(a + b, k) == HistoryOf(a, k) + HistoryOf(b, k)
  {
    FilterAppend(a, b, WithKey(k));
  }

  lemma HistoryOfOne(e: Entry, k: Key)
    ensures HistoryOf([e], k) == if e.key == k then [e.unit] else []
  {
    assert [e][1..] == [];
  }

  lemma OneMoreEntry(log: seq<Entry>, e: Entry)
    ensures forall k :: HistoryOf(log + [e], k) == HistoryOf(log, k) + if k == e.key then [e.unit] else []
  {
    forall k ensures HistoryOf(log + [e], k) == HistoryOf(log, k) + if k == e.key then [e.unit] else [] {
      HistoryAppend(log, [e], k);
      HistoryOfOne(e, k);
    }
  }

  lemma {:induction false} HistoryOfUnseen(log: seq<Entry>, k: Key)
    ensures HistoryOf(log, k) == [] <==> forall e :: e in log ==> e.key != k
  {
    FilterMembers(log, WithKey(k));
    var f := Filter(log, WithKey(k));
    assert f != [] ==> f[0] in f;
  }

  // ----- The order of summaries -----

  predicate GroupLess(a: Option<string>, b: Option<string>) {
    match (a, b)
    case (None, Some(_)) => true
    case (Some(x), Some(y)) => Less(x, y)
    case _ => false
  }

  predicate KeyLess(a: Key, b: Key) {
    Less(a.kind, b.kind) || (a.kind == b.kind && GroupLess(a.group, b.group))
  }

  lemma KeyLessTotal(a: Key, b: Key)
    ensures a == b || KeyLess(a, b) || KeyLess(b, a)
  {
    LessConnected(a.kind, b.kind);
    if a.group.Some? && b.group.Some? {
      LessConnected(a.group.value, b.group.value);
    }
  }

  lemma KeyLessTransitive(a: Key, b: Key, c: Key)
    requires KeyLess(a, b) && KeyLess(b, c)
    ensures KeyLess(a, c)
  {
    if Less(a.kind, b.kind) && Less(b.kind, c.kind) {
      LessTransitive(a.kind, b.kind, c.kind);
    }
    if a.group.Some? && b.group.Some? && c.group.Some? && Less(a.group.value, b.group.value)
       && Less(b.group.value, c.group.value) {
      LessTransitive(a.group.value, b.group.value, c.group.value);
    }
  }

  /**
   Listed in this order, kinds stand together and ascend by their characters; the kind itself comes before its groups,
   and those ascend as well.
   */
  lemma WholesComeBeforeGroups(keys: seq<Key>, i: nat, j: nat)
    requires forall i, j :: 0 <= i < j < |keys| ==> KeyLess(keys[i], keys[j])
    requires i < j < |keys|
    ensures keys[i].kind == keys[j].kind || exists n :: LeastAt(keys[i].kind, keys[j].kind, n)
    ensures keys[i].kind == keys[j].kind ==>
      && keys[j].group.Some?
      && (keys[i].group.Some? ==> exists n :: LeastAt(keys[i].group.value, keys[j].group.value, n))
  {
    LessIff(keys[i].kind, keys[j].kind);
    LessIrreflexive(keys[i].kind);
    if keys[i].group.Some? && keys[j].group.Some? {
      LessIff(keys[i].group.value, keys[j].group.value);
    }
    assert KeyLess(keys[i], keys[j]);
    hide Less;
    hide LeastAt;
  }

  lemma {:induction false} LeastKeyExists(keys: set<Key>)
    requires keys != {}
    ensures exists k :: k in keys && forall j :: j in keys && j != k ==> KeyLess(k, j)
  {
    var x :| x in keys;
    var rest := keys - {x};
    if rest == {} {
      assert keys == {x};
    } else {
      LeastKeyExists(rest);
      var k :| k in rest && forall j :: j in rest && j != k ==> KeyLess(k, j);
      KeyLessTotal(x, k);
      var least := if KeyLess(x, k) then x else k;
      forall j | j in keys && j != least ensures KeyLess(least, j) {
        if least == x && j != k {
          KeyLessTransitive(x, k, j);
        }
      }
    }
  }

  // ----- The collector -----

  class UnitTimingCollector {
    var units: map<Key, UnitAccumulator>
    ghost var log: seq<Entry>
    ghost var Repr: set<object>

    /** Every key owns its accumulator. */
    ghost predicate Owned()
      reads this, Repr
    {
      && this in Repr
      && (forall k :: k in units ==> units[k] in Repr && units[k].buckets in Repr && units[k].Valid())
      && (forall j, k :: j in units && k in units && j != k ==>
            units[j] != units[k] && units[j].buckets != units[k].buckets)
    }

    ghost predicate Valid()
      reads this, Repr
    {
      Owned() && Matches(Histories(), log)
    }

    /** What the accumulators remember. */
    ghost function Histories(): map<Key, seq<SlowUnit>>
      reads this, Repr
      requires Owned()
    {
      map k | k in units :: units[k].history
    }

    constructor ()
      ensures Valid() && fresh(Repr) && log == []
    {
      units := map[];
      log := [];
      Repr := {this};
    }

    /** The accumulator of a key, a new one if the key is new. */
    method EntryOrDefault(key: Key) returns (a: UnitAccumulator)
      requires Owned()
      modifies this
      ensures Owned() && fresh(Repr - old(Repr)) && old(Repr) <= Repr
      ensures log == old(log) && key in units && units[key] == a
      ensures Histories() == if key in old(units) then old(Histories()) else old(Histories())[key := []]
    {
      hide UnitAccumulator.Valid;
      if key in units {
        a := units[key];
      } else {
        a := new UnitAccumulator();
        units := units[key := a];
        Repr := Repr + {a, a.buckets};
      }
    }

    /** Records a unit with the accumulator of a known key; the others keep their histories. */
    method RecordAt(key: Key, identity: string, durationMs: u64)
      requires Owned() && key in units
      modifies Repr
      ensures Owned() && Repr == old(Repr) && key in old(Histories())
      ensures log == old(log) + [Entry(key, SlowUnit(identity, durationMs))]
      ensures Histories() == old(Histories())[key := old(Histories())[key] + [SlowUnit(identity, durationMs)]]
    {
      hide UnitAccumulator.Valid;
      units[key].Record(identity, durationMs);
      log := log + [Entry(key, SlowUnit(identity, durationMs))];
    }

    method RecordAggregate(kind: string, group: Option<string>, identity: string, durationMs: u64)
      requires Valid()
      modifies Repr
      ensures Valid() && fresh(Repr - old(Repr))
      ensures log == old(log) + [Entry(Key(kind, group), SlowUnit(identity, durationMs))]
    {
      hide UnitAccumulator.Valid;
      hide Matches;
      var key := Key(kind, group);
      ghost var unit, before := SlowUnit(identity, durationMs), Histories();
      MatchesGrows(before, log, Entry(key, unit));
      assert key in units <==> key in Histories();
      var a := EntryOrDefault(key);
      hide Owned;
      hide Histories;
      RecordAt(key, identity, durationMs);
      assert Histories() == before[key := (if key in before then before[key] else []) + [unit]];
    }

    method Record(kind: string, group: Option<string>, identity: string, durationMs: u64)
      requires Valid()
      modifies Repr
      ensures Valid() && fresh(Repr - old(Repr))
      ensures log == old(log) + Entries(Op.Record(kind, group, SlowUnit(identity, durationMs)))
    {
      hide Valid;
      RecordAggregate(kind, group, identity, durationMs);
    }

    method RecordGrouped(kind: string, group: string, identity: string, durationMs: u64)
      requires Valid()
      modifies Repr
      ensures Valid() && fresh(Repr - old(Repr))
      ensures log == old(log) + Entries(Op.RecordGrouped(kind, group, SlowUnit(identity, durationMs)))
    {
      hide Valid;
      RecordAggregate(kind, None, identity, durationMs);
      RecordAggregate(kind, Some(group), identity, durationMs);
    }

    method SummaryFor(k: Key) returns (s: UnitSummary)
      requires Valid() && k in units
      ensures KeyOf(s) == k && Describes(s, log)
    {
      s := units[k].Summary(k.kind, k.group);
    }

    /** The keys that were ever recorded. */
    lemma UnitsAreRecorded()
      requires Valid()
      ensures forall k :: k in units <==> HistoryOf(log, k) != []
    {
      hide UnitAccumulator.Valid;
      hide HistoryOf;
      forall k ensures k in units <==> HistoryOf(log, k) != [] {
        HistoryOfUnseen(log, k);
        assert k in units <==> k in Histories();
      }
    }

    /** One summary per key that was ever recorded, in key order, each describing exactly that key's units. */
    method Summaries() returns (out: seq<UnitSummary>)
      requires Valid()
      ensures InKeyOrder(out, {})
      ensures forall i :: 0 <= i < |out| ==> Describes(out[i], log)
      ensures forall k :: Lists(out, k) <==> HistoryOf(log, k) != []
    {
      hide UnitAccumulator.Valid;
      hide HistoryOf;
      hide Describes;
      UnitsAreRecorded();
      hide *;
      out := [];
      NothingListed();
      NothingTold(log);
      var remaining := units.Keys;
      while remaining != {}
        invariant remaining <= units.Keys && InKeyOrder(out, remaining)
        invariant DescribesAll(out, log)
        invariant forall k :: k in units <==> k in remaining || Lists(out, k)
        decreases remaining
      {
        LeastKeyExists(remaining);
        var k :| k in remaining && forall j :: j in remaining && j != k ==> KeyLess(k, j);
        var s := SummaryFor(k);
        NextInKeyOrder(out, remaining, s);
        NextIsTold(out, s, log);
        out := out + [s];
        remaining := remaining - {k};
      }
      AllAreTold(out, log);
    }
  }

  /** The keys with units, each with its history. */
  ghost predicate Matches(histories: map<Key, seq<SlowUnit>>, log: seq<Entry>) {
    && (forall e :: e in log ==> e.key in histories)
    && (forall k :: k in histories ==> HistoryOf(log, k) != [] && histories[k] == HistoryOf(log, k))
  }

  lemma MatchesGrows(histories: map<Key, seq<SlowUnit>>, log: seq<Entry>, e: Entry)
    requires Matches(histories, log)
    ensures Matches(histories[e.key := (if e.key in histories then histories[e.key] else []) + [e.unit]], log + [e])
  {
    HistoryOfUnseen(log, e.key);
    OneMoreEntry(log, e);
    hide HistoryOf;
  }

  /** A summary tells the whole history of its key. */
  ghost predicate Describes(s: UnitSummary, log: seq<Entry>) {
    s == SummaryOf(s.kind, s.group, HistoryOf(log, KeyOf(s)))
  }

  ghost predicate DescribesAll(out: seq<UnitSummary>, log: seq<Entry>) {
    forall i :: 0 <= i < |out| ==> Describes(out[i], log)
  }

  lemma NothingTold(log: seq<Entry>)
    ensures DescribesAll([], log)
  {
  }

  lemma NextIsTold(out: seq<UnitSummary>, s: UnitSummary, log: seq<Entry>)
    requires DescribesAll(out, log) && Describes(s, log)
    ensures DescribesAll(out + [s], log)
  {
    hide Describes;
  }

  lemma AllAreTold(out: seq<UnitSummary>, log: seq<Entry>)
    requires DescribesAll(out, log)
    ensures forall i :: 0 <= i < |out| ==> Describes(out[i], log)
  {
    hide Describes;
  }

  /** The summaries ascend by key, below all keys that remain. */
  ghost predicate InKeyOrder(out: seq<UnitSummary>, remaining: set<Key>) {
    && (forall i, j :: 0 <= i < j < |out| ==> KeyLess(KeyOf(out[i]), KeyOf(out[j])))
    && (forall i, k :: 0 <= i < |out| && k in remaining ==> KeyLess(KeyOf(out[i]), k))
  }

  predicate Lists(out: seq<UnitSummary>, k: Key) {
    exists i :: 0 <= i < |out| && KeyOf(out[i]) == k
  }

  lemma NothingListed()
    ensures forall remaining :: InKeyOrder([], remaining)
    ensures forall k :: !Lists([], k)
  {
  }

  lemma NextInKeyOrder(out: seq<UnitSummary>, remaining: set<Key>, s: UnitSummary)
    requires InKeyOrder(out, remaining) && KeyOf(s) in remaining
    requires forall j :: j in remaining && j != KeyOf(s) ==> KeyLess(KeyOf(s), j)
    ensures InKeyOrder(out + [s], remaining - {KeyOf(s)})
    ensures forall k :: Lists(out + [s], k) <==> Lists(out, k) || k == KeyOf(s)
  {
    hide KeyLess;
    assert (out + [s])[|out|] == s;
    forall k | Lists(out, k) ensures Lists(out + [s], k) {
      var i :| 0 <= i < |out| && KeyOf(out[i]) == k;
      assert (out + [s])[i] == out[i];
    }
  }

  function KeyOf(s: UnitSummary): Key {
    Key(s.kind, s.group)
  }

  // ----- Conservation between groups and the whole -----

  datatype GroupedUnit = GroupedUnit(group: string, unit: SlowUnit)

  function Inner(x: GroupedUnit): SlowUnit {
    x.unit
  }

  function GroupedDuration(x: GroupedUnit): nat {
    x.unit.durationMs
  }

  function InGroup(g: string): GroupedUnit -> bool {
    (x: GroupedUnit) => x.group == g
  }

  function AllOf(units: seq<GroupedUnit>): seq<SlowUnit> {
    Map(units, Inner)
  }

  function GroupOf(units: seq<GroupedUnit>, g: string): seq<SlowUnit> {
    Map(Filter(units, InGroup(g)), Inner)
  }

  /** Every unit of the kind was recorded with its group. */
  ghost predicate GroupedOnly(ops: seq<Op>, kind: string) {
    forall op :: op in ops && op.kind == kind ==> op.RecordGrouped?
  }

  ghost function GroupedUnits(ops: seq<Op>, kind: string): seq<GroupedUnit>
    requires GroupedOnly(ops, kind)
  {
    if ops == [] then []
    else
      var op := ops[|ops| - 1];
      GroupedUnits(ops[..|ops| - 1], kind) + if op.kind == kind then [GroupedUnit(op.groupName, op.unit)] else []
  }

  lemma {:induction false} GroupedHistories(ops: seq<Op>, kind: string, g: string)
    requires GroupedOnly(ops, kind)
    ensures HistoryOf(LogOf(ops), Key(kind, None)) == AllOf(GroupedUnits(ops, kind))
    ensures HistoryOf(LogOf(ops), Key(kind, Some(g))) == GroupOf(GroupedUnits(ops, kind), g)
  {
    if ops != [] {
      var before, op := ops[..|ops| - 1], ops[|ops| - 1];
      GroupedHistories(before, kind, g);
      HistoryAppend(LogOf(before), Entries(op), Key(kind, None));
      HistoryAppend(LogOf(before), Entries(op), Key(kind, Some(g)));
      HistoryOfEntries(op, Key(kind, None));
      HistoryOfEntries(op, Key(kind, Some(g)));
      if op.kind == kind {
        GroupGrows(GroupedUnits(before, kind), GroupedUnit(op.groupName, op.unit), g);
      } else {
        assert GroupedUnits(ops, kind) == GroupedUnits(before, kind);
      }
    }
  }

  lemma HistoryOfEntries(op: Op, k: Key)
    ensures HistoryOf(Entries(op), k)
         == if op.kind != k.kind then []
            else if op.RecordGrouped? then (if k.group == None || k.group == Some(op.groupName) then [op.unit] else [])
            else if op.group == k.group then [op.unit] else []
  {
    var e := Entries(op);
    HistoryOfOne(e[0], k);
    if |e| == 2 {
      HistoryOfOne(e[1], k);
      HistoryAppend([e[0]], [e[1]], k);
      assert e == [e[0]] + [e[1]];
    } else {
      assert e == [e[0]];
    }
  }

  lemma GroupGrows(units: seq<GroupedUnit>, x: GroupedUnit, g: string)
    ensures AllOf(units + [x]) == AllOf(units) + [x.unit]
    ensures GroupOf(units + [x], g) == GroupOf(units, g) + if x.group == g then [x.unit] else []
  {
    FilterAppend(units, [x], InGroup(g));
    assert [x][1..] == [];
  }

  function SumOver(gs: seq<string>, f: string -> nat): nat {
    if gs == [] then 0 else f(gs[0]) + SumOver(gs[1..], f)
  }

  function LeastOver(gs: seq<string>, f: string -> u64): u64 {
    if gs == [] then U64_MAX else var m := LeastOver(gs[1..], f); if f(gs[0]) < m then f(gs[0]) else m
  }

  function GreatestOver(gs: seq<string>, f: string -> u64): u64 {
    if gs == [] then 0 else var m := GreatestOver(gs[1..], f); if f(gs[0]) > m then f(gs[0]) else m
  }

  function GroupWeights(units: seq<GroupedUnit>, m: SlowUnit -> nat): string -> nat {
    (g: string) => Weigh(GroupOf(units, g), m)
  }

  /** What the groups' own accumulators report: each already saturated. */
  function SaturatedGroupWeights(units: seq<GroupedUnit>, m: SlowUnit -> nat): string -> nat {
    (g: string) => Sat(Weigh(GroupOf(units, g), m))
  }

  function GroupLeast(units: seq<GroupedUnit>): string -> u64 {
    (g: string) => Least(GroupOf(units, g))
  }

  function GroupGreatest(units: seq<GroupedUnit>): string -> u64 {
    (g: string) => Greatest(GroupOf(units, g))
  }

  /** A listing of groups, each once, that misses no recorded unit. */
  ghost predicate Covers(gs: seq<string>, units: seq<GroupedUnit>) {
    Distinct(gs) && forall x :: x in units ==> x.group in gs
  }

  lemma {:induction false} SumChangesAtOne(gs: seq<string>, f: string -> nat, f': string -> nat, g: string, d: nat)
    requires Distinct(gs)
    requires f'(g) == f(g) + d
    requires forall x :: x != g ==> f'(x) == f(x)
    ensures SumOver(gs, f') == SumOver(gs, f) + if g in gs then d else 0
  {
    if gs != [] {
      SumChangesAtOne(gs[1..], f, f', g, d);
      assert gs == [gs[0]] + gs[1..];
      assert gs[0] !in gs[1..];
    }
  }

  lemma WeighOneMore(h: seq<SlowUnit>, u: SlowUnit, m: SlowUnit -> nat)
    ensures Weigh(h + [u], m) == Weigh(h, m) + m(u)
  {
    assert (h + [u])[..|h + [u]| - 1] == h;
  }

  lemma GroupStatisticsGrow(units: seq<GroupedUnit>, x: GroupedUnit, g: string, m: SlowUnit -> nat)
    ensures Weigh(GroupOf(units + [x], g), m) == Weigh(GroupOf(units, g), m) + if g == x.group then m(x.unit) else 0
    ensures Least(GroupOf(units + [x], g))
         == if g == x.group then MinOf(Least(GroupOf(units, g)), x.unit.durationMs) else Least(GroupOf(units, g))
    ensures Greatest(GroupOf(units + [x], g))
         == if g == x.group then MaxOf(Greatest(GroupOf(units, g)), x.unit.durationMs) else Greatest(GroupOf(units, g))
  {
    GroupGrows(units, x, g);
    if g == x.group {
      WeighOneMore(GroupOf(units, g), x.unit, m);
      HistoryGrows(GroupOf(units, g), x.unit);
    } else {
      assert GroupOf(units + [x], g) == GroupOf(units, g);
    }
  }

  lemma GroupWeightGrows(units: seq<GroupedUnit>, x: GroupedUnit, g: string, m: SlowUnit -> nat)
    ensures GroupWeights(units + [x], m)(g) == GroupWeights(units, m)(g) + if g == x.group then m(x.unit) else 0
  {
    GroupStatisticsGrow(units, x, g, m);
    hide Weigh;
    hide GroupOf;
  }

  lemma CoversFewer(gs: seq<string>, units: seq<GroupedUnit>, x: GroupedUnit)
    requires Covers(gs, units + [x])
    ensures Covers(gs, units) && x.group in gs && Distinct(gs)
  {
    assert x in units + [x];
    assert forall y :: y in units ==> y in units + [x];
  }

  lemma {:induction false} WeightsAdd(units: seq<GroupedUnit>, gs: seq<string>, m: SlowUnit -> nat)
    requires Covers(gs, units)
    ensures SumOver(gs, GroupWeights(units, m)) == Weigh(AllOf(units), m)
  {
    if units == [] {
      SumOfZeros(gs, GroupWeights(units, m));
    } else {
      var before, x := units[..|units| - 1], units[|units| - 1];
      assert units == before + [x];
      CoversFewer(gs, before, x);
      hide *;
      WeightsAdd(before, gs, m);
      forall g
        ensures GroupWeights(units, m)(g) == GroupWeights(before, m)(g) + if g == x.group then m(x.unit) else 0
      {
        GroupWeightGrows(before, x, g, m);
      }
      SumChangesAtOne(gs, GroupWeights(before, m), GroupWeights(units, m), x.group, m(x.unit));
      GroupGrows(before, x, x.group);
      WeighOneMore(AllOf(before), x.unit, m);
    }
  }

  lemma {:induction false} SumOfZeros(gs: seq<string>, f: string -> nat)
    requires forall g :: f(g) == 0
    ensures SumOver(gs, f) == 0
  {
    if gs != [] {
      SumOfZeros(gs[1..], f);
    }
  }

  lemma {:induction false} SaturationOfSums(gs: seq<string>, f: string -> nat, saturated: string -> nat)
    requires forall g :: saturated(g) == Sat(f(g))
    ensures Sat(SumOver(gs, saturated)) == Sat(SumOver(gs, f))
    ensures SumOver(gs, saturated) <= SumOver(gs, f)
  {
    if gs != [] {
      SaturationOfSums(gs[1..], f, saturated);
    }
  }

  lemma {:induction false} LeastAdds(units: seq<GroupedUnit>, gs: seq<string>)
    requires Covers(gs, units)
    ensures LeastOver(gs, GroupLeast(units)) == Least(AllOf(units))
  {
    if units == [] {
      ExtremesOfNothing(gs, GroupLeast(units), GroupGreatest(units));
    } else {
      var before, x := units[..|units| - 1], units[|units| - 1];
      assert units == before + [x];
      assert x in units;
      LeastAdds(before, gs);
      forall g
        ensures GroupLeast(units)(g) == if g == x.group then MinOf(GroupLeast(before)(g), x.unit.durationMs)
                                        else GroupLeast(before)(g)
      {
        GroupStatisticsGrow(before, x, g, Duration);
      }
      LeastChangesAtOne(gs, GroupLeast(before), GroupLeast(units), x.group, x.unit.durationMs);
      GroupGrows(before, x, x.group);
      HistoryGrows(AllOf(before), x.unit);
    }
  }

  lemma {:induction false} LeastChangesAtOne(gs: seq<string>, f: string -> u64, f': string -> u64, g: string, d: u64)
    requires f'(g) == MinOf(f(g), d)
    requires forall x :: x != g ==> f'(x) == f(x)
    ensures LeastOver(gs, f') == if g in gs then MinOf(LeastOver(gs, f), d) else LeastOver(gs, f)
  {
    if gs != [] {
      LeastChangesAtOne(gs[1..], f, f', g, d);
      assert gs == [gs[0]] + gs[1..];
    }
  }

  lemma {:induction false} GreatestChangesAtOne(gs: seq<string>, f: string -> u64, f': string -> u64, g: string, d: u64)
    requires f'(g) == MaxOf(f(g), d)
    requires forall x :: x != g ==> f'(x) == f(x)
    ensures GreatestOver(gs, f') == if g in gs then MaxOf(GreatestOver(gs, f), d) else GreatestOver(gs, f)
  {
    if gs != [] {
      GreatestChangesAtOne(gs[1..], f, f', g, d);
      assert gs == [gs[0]] + gs[1..];
    }
  }

  lemma {:induction false} GreatestAdds(units: seq<GroupedUnit>, gs: seq<string>)
    requires Covers(gs, units)
    ensures GreatestOver(gs, GroupGreatest(units)) == Greatest(AllOf(units))
  {
    if units == [] {
      ExtremesOfNothing(gs, GroupLeast(units), GroupGreatest(units));
    } else {
      var before, x := units[..|units| - 1], units[|units| - 1];
      assert units == before + [x];
      assert x in units;
      GreatestAdds(before, gs);
      forall g
        ensures GroupGreatest(units)(g) == if g == x.group then MaxOf(GroupGreatest(before)(g), x.unit.durationMs)
                                           else GroupGreatest(before)(g)
      {
        GroupStatisticsGrow(before, x, g, Duration);
      }
      GreatestChangesAtOne(gs, GroupGreatest(before), GroupGreatest(units), x.group, x.unit.durationMs);
      GroupGrows(before, x, x.group);
      HistoryGrows(AllOf(before), x.unit);
    }
  }

  lemma {:induction false} ExtremesOfNothing(gs: seq<string>, low: string -> u64, high: string -> u64)
    requires forall g :: low(g) == U64_MAX && high(g) == 0
    ensures LeastOver(gs, low) == U64_MAX && GreatestOver(gs, high) == 0
  {
    if gs != [] {
      ExtremesOfNothing(gs[1..], low, high);
    }
  }

  /** A saturating counter of the whole is the saturating sum of its groups' saturated counters. */
  lemma CounterConserved(units: seq<GroupedUnit>, gs: seq<string>, m: SlowUnit -> nat)
    requires Covers(gs, units)
    ensures Sat(Weigh(AllOf(units), m)) == Sat(SumOver(gs, SaturatedGroupWeights(units, m)))
  {
    WeightsAdd(units, gs, m);
    SaturationOfSums(gs, GroupWeights(units, m), SaturatedGroupWeights(units, m));
  }

  lemma {:induction false} CountIsWeight(h: seq<SlowUnit>)
    ensures Weigh(h, Each) == |h|
  {
    if h != [] {
      CountIsWeight(h[..|h| - 1]);
    }
  }

  /** The slowest units of the whole, still tagged with the group each came from. */
  function TaggedSlowest(units: seq<GroupedUnit>): seq<GroupedUnit> {
    Take(SortDescending(units, GroupedDuration), SLOWEST_UNITS)
  }

  /** Among the slowest units of the whole, those of one group open that group's own list, in the same order. */
  lemma SlowestConserved(units: seq<GroupedUnit>, g: string)
    ensures Slowest(AllOf(units)) == Map(TaggedSlowest(units), Inner)
    ensures Map(Filter(TaggedSlowest(units), InGroup(g)), Inner) <= Slowest(GroupOf(units, g))
  {
    var sorted := SortDescending(units, GroupedDuration);
    hide SortDescending;
    hide Filter;
    SortMapped(units, Inner, GroupedDuration, Duration);
    SortMapped(Filter(units, InGroup(g)), Inner, GroupedDuration, Duration);
    FilterOfSort(units, GroupedDuration, InGroup(g));
    FilterOfTake(sorted, SLOWEST_UNITS, InGroup(g));
  }

  /**
   Conservation. If a kind is recorded only with its group, then after any run the all-groups accumulator
   of the kind is the merge of its per-group accumulators.
   */
  lemma GroupsMergeIntoTheWhole(ops: seq<Op>, kind: string, gs: seq<string>)
    requires GroupedOnly(ops, kind)
    requires Covers(gs, GroupedUnits(ops, kind))
    ensures var units := GroupedUnits(ops, kind); var log := LogOf(ops);
      var whole := HistoryOf(log, Key(kind, None));
      && (forall g :: HistoryOf(log, Key(kind, Some(g))) == GroupOf(units, g))
      && Sat(|whole|) == Sat(SumOver(gs, SaturatedGroupWeights(units, Each)))
      && Sat(Weigh(whole, Duration)) == Sat(SumOver(gs, SaturatedGroupWeights(units, Duration)))
      && (forall i :: Sat(Weigh(whole, InBucket(i))) == Sat(SumOver(gs, SaturatedGroupWeights(units, InBucket(i)))))
      && Least(whole) == LeastOver(gs, GroupLeast(units))
      && Greatest(whole) == GreatestOver(gs, GroupGreatest(units))
      && Slowest(whole) == Map(TaggedSlowest(units), Inner)
      && forall g :: Map(Filter(TaggedSlowest(units), InGroup(g)), Inner) <= Slowest(GroupOf(units, g))
  {
    var units := GroupedUnits(ops, kind);
    forall g
      ensures HistoryOf(LogOf(ops), Key(kind, Some(g))) == GroupOf(units, g)
      ensures Map(Filter(TaggedSlowest(units), InGroup(g)), Inner) <= Slowest(GroupOf(units, g))
    {
      GroupedHistories(ops, kind, g);
      SlowestConserved(units, g);
    }
    GroupedHistories(ops, kind, "");
    SlowestConserved(units, "");
    CountIsWeight(AllOf(units));
    CounterConserved(units, gs, Each);
    CounterConserved(units, gs, Duration);
    forall i
      ensures Sat(Weigh(AllOf(units), InBucket(i))) == Sat(SumOver(gs, SaturatedGroupWeights(units, InBucket(i))))
    {
      CounterConserved(units, gs, InBucket(i));
    }
    LeastAdds(units, gs);
    GreatestAdds(units, gs);
  }
}
