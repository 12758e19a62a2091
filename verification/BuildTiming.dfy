/**
 Bounded timing statistics of a build: what a streaming accumulator keeps, against the unbounded history
 it has forgotten.
 */
module BuildTiming {
  import opened Options
  import opened Machine
  import opened StableSort

  const SLOWEST_UNITS: nat := 10
  const BUCKETS: nat := 64

  datatype SlowUnit = SlowUnit(identity: string, durationMs: u64)

  datatype UnitSummary = UnitSummary(
    kind: string,
    group: Option<string>,
    count: u64,
    totalDurationMs: u64,
    minDurationMs: u64,
    p50DurationMs: u64,
    p95DurationMs: u64,
    maxDurationMs: u64,
    slowest: seq<SlowUnit>)

  // ----- What the statistics mean, on a whole history -----

  function Duration(u: SlowUnit): nat {
    u.durationMs
  }

  /** The logarithmic bucket of a duration; the last bucket takes everything that is longer. */
  function BucketOf(durationMs: u64): (b: nat)
    ensures b < BUCKETS
  {
    var b := BitLength(durationMs);
    if b <= BUCKETS - 1 then b else BUCKETS - 1
  }

  function InBucket(i: int): SlowUnit -> nat {
    (u: SlowUnit) => if BucketOf(u.durationMs) == i then 1 else 0
  }

  function UpToBucket(i: int): SlowUnit -> nat {
    (u: SlowUnit) => if BucketOf(u.durationMs) <= i then 1 else 0
  }

  function Each(u: SlowUnit): nat {
    1
  }

  function MinOf(a: u64, b: u64): u64 {
    if a < b then a else b
  }

  function MaxOf(a: u64, b: u64): u64 {
    if a > b then a else b
  }

  function Least(h: seq<SlowUnit>): u64 {
    if h == [] then U64_MAX
    else MinOf(Least(h[..|h| - 1]), h[|h| - 1].durationMs)
  }

  function Greatest(h: seq<SlowUnit>): u64 {
    if h == [] then 0
    else MaxOf(Greatest(h[..|h| - 1]), h[|h| - 1].durationMs)
  }

  /** The units a reader of an unbounded log would list: longest first, ties in arrival order. */
  function Slowest(h: seq<SlowUnit>): seq<SlowUnit> {
    Take(SortDescending(h, Duration), SLOWEST_UNITS)
  }

  /** The rank a percentile asks for, over exact integers. */
  function ExactRank(count: nat, numerator: nat, denominator: nat): nat
    requires denominator > 0
  {
    Product(count, numerator);
    var rank := CeilDiv(count * numerator, denominator);
    if rank >= 1 then rank else 1
  }

  /** The rank the program computes: the product saturates. */
  function MachineRank(count: u64, numerator: u64, denominator: u64): nat
    requires denominator > 0
  {
    var rank := CeilDiv(SatMul(count, numerator), denominator);
    if rank >= 1 then rank else 1
  }

  /** The duration of the `rank`-th shortest unit. */
  function RankStatistic(h: seq<SlowUnit>, rank: nat): u64
    requires 1 <= rank <= |h|
  {
    SortDescending(h, Duration)[|h| - rank].durationMs
  }

  /** The least duration that falls into a bucket. */
  function BucketFloor(i: nat): (r: u64)
    requires i < BUCKETS
  {
    if i == 0 then 0 else FloorFits(i); Pow2(i - 1)
  }

  /** The first bucket, from `i` on, at which the running count of units reaches `rank`. */
  function LeastReaching(h: seq<SlowUnit>, rank: nat, i: nat): (r: Option<nat>)
    requires i <= BUCKETS
    ensures r.Some? ==> i <= r.value < BUCKETS && Sat(Weigh(h, UpToBucket(r.value))) >= rank
    ensures r.Some? ==> forall j :: i <= j < r.value ==> Sat(Weigh(h, UpToBucket(j))) < rank
    ensures r.None? ==> forall j :: i <= j < BUCKETS ==> Sat(Weigh(h, UpToBucket(j))) < rank
    decreases BUCKETS - i
  {
    if i == BUCKETS then None
    else if Sat(Weigh(h, UpToBucket(i))) >= rank then Some(i)
    else LeastReaching(h, rank, i + 1)
  }

  /** The percentile of a history: zero without units, and the maximum should no bucket reach the rank. */
  function PercentileOf(h: seq<SlowUnit>, numerator: u64, denominator: u64): u64
    requires denominator > 0
  {
    if h == [] then 0
    else
      match LeastReaching(h, MachineRank(Sat(|h|), numerator, denominator), 0)
      case Some(i) => BucketFloor(i)
      case None => Greatest(h)
  }

  function SummaryOf(kind: string, group: Option<string>, h: seq<SlowUnit>): UnitSummary {
    UnitSummary(kind, group, Sat(|h|), Sat(Weigh(h, Duration)), if h == [] then 0 else Least(h),
                PercentileOf(h, 50, 100), PercentileOf(h, 95, 100), Greatest(h), Slowest(h))
  }

  lemma FloorFits(i: nat)
    requires 1 <= i < BUCKETS
    ensures Pow2(i - 1) <= U64_MAX
  {
    Pow2Monotone(i - 1, 62);
    WordLimits();
  }

  /** The bounded state of an accumulator. */
  datatype Memory = Memory(count: u64, total: u64, min: u64, max: u64, buckets: seq<u64>, slowest: seq<SlowUnit>)

  /** What is remembered of the history `h`. */
  function MemoryOf(h: seq<SlowUnit>): (m: Memory)
    ensures |m.buckets| == BUCKETS
  {
    Memory(Sat(|h|), Sat(Weigh(h, Duration)), Least(h), Greatest(h),
           seq(BUCKETS, i requires 0 <= i < BUCKETS => Sat(Weigh(h, InBucket(i)))), Slowest(h))
  }

  /** What is remembered after one more unit. */
  function Grown(m: Memory, u: SlowUnit): Memory
    requires |m.buckets| == BUCKETS
  {
    var b := BucketOf(u.durationMs);
    Memory(SatAdd(m.count, 1), SatAdd(m.total, u.durationMs), MinOf(m.min, u.durationMs), MaxOf(m.max, u.durationMs),
           m.buckets[b := SatAdd(m.buckets[b], 1)],
           Take(SortDescending(m.slowest + [u], Duration), SLOWEST_UNITS))
  }

  // ----- The accumulator -----

  /** The state of one accumulator is a function of the units it has seen. */
  class UnitAccumulator {
    var count: u64
    var total: u64
    var min: u64
    var max: u64
    const buckets: array<u64>
    var slowest: seq<SlowUnit>
    ghost var history: seq<SlowUnit>

    ghost predicate Valid()
      reads this, buckets
    {
      Contents() == MemoryOf(history)
    }

    ghost function Contents(): Memory
      reads this, buckets
    {
      Memory(count, total, min, max, buckets[..], slowest)
    }

    constructor ()
      ensures Valid() && fresh(buckets) && history == []
    {
      count, total, min, max := 0, 0, U64_MAX, 0;
      var b := new u64[BUCKETS](_ => 0);
      buckets := b;
      slowest := [];
      history := [];
    }

    /** One more unit in a bucket. */
    method CountIn(bucket: nat)
      requires bucket < buckets.Length
      modifies buckets
      ensures buckets[..] == old(buckets[..])[bucket := SatAdd(old(buckets[..])[bucket], 1)]
    {
      buckets[bucket] := SatAdd(buckets[bucket], 1);
    }

    /** One more candidate for the slowest units. */
    method KeepIfSlow(u: SlowUnit)
      modifies this`slowest
      ensures slowest == Take(SortDescending(old(slowest) + [u], Duration), SLOWEST_UNITS)
    {
      slowest := slowest + [u];
      slowest := SortDescending(slowest, Duration);
      slowest := Take(slowest, SLOWEST_UNITS);
    }

    method Record(identity: string, durationMs: u64)
      requires Valid()
      modifies this, buckets
      ensures Valid()
      ensures history == old(history) + [SlowUnit(identity, durationMs)]
    {
      var u := SlowUnit(identity, durationMs);
      OneMoreUnit(history, u);
      assert |Contents().buckets| == BUCKETS;
      hide Least;
      hide Greatest;
      hide Weigh;
      hide MemoryOf;
      count := SatAdd(count, 1);
      total := SatAdd(total, durationMs);
      min := MinOf(min, durationMs);
      max := MaxOf(max, durationMs);
      CountIn(BucketOf(durationMs));
      KeepIfSlow(u);
      assert Contents() == Grown(old(Contents()), u);
      history := history + [u];
    }

    /** What the fields are, of the history. */
    lemma Kept()
      requires Valid()
      ensures count == Sat(|history|) && max == Greatest(history) && buckets.Length == BUCKETS
    {
      assert |Contents().buckets| == BUCKETS;
      hide Weigh;
      hide Greatest;
    }

    lemma KeptBucket(i: nat)
      requires Valid() && i < BUCKETS
      ensures i < buckets.Length && buckets[i] == Sat(Weigh(history, InBucket(i)))
    {
      assert buckets[i] == Contents().buckets[i];
      hide Weigh;
    }

    method Percentile(numerator: u64, denominator: u64) returns (r: u64)
      requires Valid() && denominator > 0
      ensures r == PercentileOf(history, numerator, denominator)
    {
      hide *;
      Kept();
      PercentileIs(history, numerator, denominator);
      if count == 0 {
        return 0;
      }
      var target := MachineRank(count, numerator, denominator);
      var seen: u64 := 0;
      ghost var least := LeastReaching(history, target, 0);
      NothingBelowBucketZero(history);
      for index := 0 to BUCKETS
        invariant seen == Sat(Weigh(history, UpToBucket(index - 1)))
        invariant least == LeastReaching(history, target, index)
      {
        KeptBucket(index);
        BucketReached(history, target, index);
        seen := SatAdd(seen, buckets[index]);
        if seen >= target {
          return BucketFloor(index);
        }
      }
      NoneReached(history, target);
      return max;
    }

    method Summary(kind: string, group: Option<string>) returns (s: UnitSummary)
      requires Valid()
      ensures s == SummaryOf(kind, group, history)
    {
      var p50 := Percentile(50, 100);
      var p95 := Percentile(95, 100);
      s := UnitSummary(kind, group, count, total, if count == 0 then 0 else min, p50, p95, max, slowest);
    }
  }

  // ----- What the percentile loop looks for -----

  lemma PercentileIs(h: seq<SlowUnit>, numerator: u64, denominator: u64)
    requires denominator > 0
    ensures Sat(|h|) == 0 ==> PercentileOf(h, numerator, denominator) == 0
    ensures var least := LeastReaching(h, MachineRank(Sat(|h|), numerator, denominator), 0);
      Sat(|h|) > 0 ==>
      && (least.Some? ==> PercentileOf(h, numerator, denominator) == BucketFloor(least.value))
      && (least.None? ==> PercentileOf(h, numerator, denominator) == Greatest(h))
  {
    hide MachineRank;
    hide LeastReaching;
    hide BucketFloor;
  }

  /** One more bucket in the running count, and what the search does with it. */
  lemma BucketReached(h: seq<SlowUnit>, rank: nat, i: nat)
    requires i < BUCKETS
    ensures SatAdd(Sat(Weigh(h, UpToBucket(i - 1))), Sat(Weigh(h, InBucket(i)))) == Sat(Weigh(h, UpToBucket(i)))
    ensures LeastReaching(h, rank, i)
         == if Sat(Weigh(h, UpToBucket(i))) >= rank then Some(i) else LeastReaching(h, rank, i + 1)
  {
    OneMoreBucket(h, i);
    hide Weigh;
  }

  lemma NoneReached(h: seq<SlowUnit>, rank: nat)
    ensures LeastReaching(h, rank, BUCKETS) == None
  {
  }

  // ----- Why the accumulator forgets nothing that matters -----

  /** Appending, sorting and truncating at every step keeps exactly the slowest units of the whole history. */
  lemma TopTenIsMaintained(h: seq<SlowUnit>, u: SlowUnit)
    ensures Take(SortDescending(Slowest(h) + [u], Duration), SLOWEST_UNITS) == Slowest(h + [u])
  {
    var all := SortDescending(h, Duration);
    SortIsDescending(h, Duration);
    SortOfSorted(Slowest(h), Duration);
    assert (h + [u])[..|h|] == h;
    assert (Slowest(h) + [u])[..|Slowest(h)|] == Slowest(h);
    TakeInsert(all, u, Duration, SLOWEST_UNITS);
  }

  lemma OneMoreUnit(h: seq<SlowUnit>, u: SlowUnit)
    ensures MemoryOf(h + [u]) == Grown(MemoryOf(h), u)
  {
    TopTenIsMaintained(h, u);
    HistoryGrows(h, u);
    hide Weigh;
    hide Least;
    hide Greatest;
    hide Slowest;
    hide SortDescending;
    assert MemoryOf(h + [u]).buckets == Grown(MemoryOf(h), u).buckets;
  }

  lemma HistoryGrows(h: seq<SlowUnit>, u: SlowUnit)
    ensures Weigh(h + [u], Duration) == Weigh(h, Duration) + u.durationMs
    ensures Least(h + [u]) == MinOf(Least(h), u.durationMs)
    ensures Greatest(h + [u]) == MaxOf(Greatest(h), u.durationMs)
    ensures forall i :: Weigh(h + [u], InBucket(i))
                     == Weigh(h, InBucket(i)) + if BucketOf(u.durationMs) == i then 1 else 0
  {
    assert (h + [u])[..|h + [u]| - 1] == h;
  }

  lemma {:induction false} NothingBelowBucketZero(h: seq<SlowUnit>)
    ensures Weigh(h, UpToBucket(-1)) == Sat(Weigh(h, UpToBucket(-1))) == 0
  {
    if h != [] {
      NothingBelowBucketZero(h[..|h| - 1]);
    }
  }

  lemma {:induction false} OneMoreBucket(h: seq<SlowUnit>, i: nat)
    ensures Weigh(h, UpToBucket(i)) == Weigh(h, UpToBucket(i - 1)) + Weigh(h, InBucket(i))
  {
    if h != [] {
      OneMoreBucket(h[..|h| - 1], i);
    }
  }

  lemma {:induction false} EverythingIsBucketed(h: seq<SlowUnit>)
    ensures Weigh(h, UpToBucket(BUCKETS - 1)) == |h|
  {
    if h != [] {
      EverythingIsBucketed(h[..|h| - 1]);
    }
  }

  // ----- Percentiles -----

  lemma RankWithinCount(count: u64, numerator: u64, denominator: u64)
    requires count > 0 && denominator > 0 && numerator <= denominator
    ensures MachineRank(count, numerator, denominator) <= count
  {
    Product(count, numerator);
    Scale(numerator, denominator, count);
    CeilDivLeast(SatMul(count, numerator), denominator, count);
  }

  lemma Scale(a: int, b: int, d: nat)
    ensures a <= b ==> a * d <= b * d
  {
  }

  lemma CeilDivLeast(a: nat, d: nat, q: nat)
    requires d > 0 && a <= q * d
    ensures CeilDiv(a, d) <= q
  {
    Scale(q, CeilDiv(a, d) - 1, d);
  }

  /** A percentile of a non-empty history is always found in a bucket, even after every counter saturated. */
  lemma PercentileNeverFallsBack(h: seq<SlowUnit>, numerator: u64, denominator: u64)
    requires h != [] && denominator > 0 && numerator <= denominator
    ensures LeastReaching(h, MachineRank(Sat(|h|), numerator, denominator), 0).Some?
  {
    RankWithinCount(Sat(|h|), numerator, denominator);
    EverythingIsBucketed(h);
    assert Sat(Weigh(h, UpToBucket(BUCKETS - 1))) >= MachineRank(Sat(|h|), numerator, denominator);
  }

  /** On a descending sequence, the units in low buckets are a suffix. */
  lemma {:induction false} LowBucketsAreASuffix(s: seq<SlowUnit>, i: nat, rank: nat)
    requires Descending(s, Duration) && 1 <= rank <= |s|
    ensures Weigh(s, UpToBucket(i)) >= rank <==> BucketOf(s[|s| - rank].durationMs) <= i
  {
    var last, rest := s[|s| - 1], s[..|s| - 1];
    BucketMonotone(last.durationMs, s[|s| - rank].durationMs) by {
      assert Duration(s[|s| - rank]) >= Duration(last);
    }
    if BucketOf(last.durationMs) > i {
      NoneInLowBuckets(s, i);
    } else if rank > 1 {
      LowBucketsAreASuffix(rest, i, rank - 1);
      assert rest[|rest| - (rank - 1)] == s[|s| - rank];
    }
  }

  lemma {:induction false} NoneInLowBuckets(s: seq<SlowUnit>, i: nat)
    requires Descending(s, Duration)
    requires s != [] ==> BucketOf(s[|s| - 1].durationMs) > i
    ensures Weigh(s, UpToBucket(i)) == 0
  {
    if s != [] {
      var rest := s[..|s| - 1];
      if rest != [] {
        assert Duration(rest[|rest| - 1]) >= Duration(s[|s| - 1]);
        BucketMonotone(s[|s| - 1].durationMs, rest[|rest| - 1].durationMs);
      }
      NoneInLowBuckets(rest, i);
    }
  }

  lemma BucketMonotone(a: u64, b: u64)
    requires a <= b
    ensures BucketOf(a) <= BucketOf(b)
  {
    BitLengthMonotone(a, b);
  }

  lemma ReachesRankIff(h: seq<SlowUnit>, rank: nat, i: nat)
    requires 1 <= rank <= |h| <= U64_MAX && i < BUCKETS
    ensures Sat(Weigh(h, UpToBucket(i))) >= rank <==> BucketOf(RankStatistic(h, rank)) <= i
  {
    hide SortDescending;
    hide Weigh;
    hide BucketOf;
    var s := SortDescending(h, Duration);
    SortIsDescending(h, Duration);
    SortWeighs(h, Duration, UpToBucket(i));
    assert RankStatistic(h, rank) == s[|s| - rank].durationMs;
    hide *;
    LowBucketsAreASuffix(s, i, rank);
    SatReaches(Weigh(h, UpToBucket(i)), rank);
  }

  lemma SatReaches(w: nat, rank: nat)
    requires rank <= U64_MAX
    ensures Sat(w) >= rank <==> w >= rank
  {
  }

  /** When the computed rank is exact, the percentile is the floor of the bucket of the true statistic. */
  lemma PercentileIsTheStatisticsBucket(h: seq<SlowUnit>, rank: nat)
    requires 1 <= rank <= |h| <= U64_MAX
    ensures LeastReaching(h, rank, 0) == Some(BucketOf(RankStatistic(h, rank)))
  {
    var b := BucketOf(RankStatistic(h, rank));
    forall i: nat | i < BUCKETS
      ensures Sat(Weigh(h, UpToBucket(i))) >= rank <==> b <= i
    {
      ReachesRankIff(h, rank, i);
    }
    hide RankStatistic;
    hide BucketOf;
    hide Weigh;
    var r := LeastReaching(h, rank, 0);
    assert Sat(Weigh(h, UpToBucket(b))) >= rank;
    assert r.Some?;
  }

  /** The floor of a bucket is zero for zero only, and otherwise within a factor of two - four in the last bucket. */
  lemma BucketBrackets(x: u64)
    ensures var r := BucketFloor(BucketOf(x));
      && (r == 0 <==> x == 0)
      && (x > 0 ==> exists k: nat :: r == Pow2(k))
      && r <= x
      && (0 < x < 0x8000_0000_0000_0000 ==> x < 2 * r)
      && (x >= 0x8000_0000_0000_0000 ==> x < 4 * r)
  {
    if x > 0 {
      FloorOfBucket(x);
      LongOrShort(x);
      hide BucketFloor;
      hide BucketOf;
      hide BitLength;
    }
  }

  lemma FloorOfBucket(x: u64)
    requires x > 0
    ensures BitLength(x) >= 1
    ensures BucketFloor(BucketOf(x)) == Pow2(if BitLength(x) <= 63 then BitLength(x) - 1 else 62)
  {
    BitLengthBounds(x);
    hide Pow2;
  }

  lemma LongOrShort(x: u64)
    requires x > 0
    ensures BitLength(x) <= 63 ==> Pow2(BitLength(x) - 1) <= x < 2 * Pow2(BitLength(x) - 1) <= 0x8000_0000_0000_0000
    ensures BitLength(x) > 63 ==> x >= 0x8000_0000_0000_0000 && Pow2(62) == 0x4000_0000_0000_0000
  {
    WordLimits();
    BitLengthBounds(x);
    var b := BitLength(x);
    hide BitLength;
    if b <= 63 {
      Pow2Monotone(b, 63);
    } else {
      Pow2Monotone(63, b - 1);
    }
  }

  /** With no saturation, a reported percentile brackets the true nearest-rank statistic. */
  lemma PercentileBracketsTheStatistic(h: seq<SlowUnit>, numerator: u64, denominator: u64)
    requires h != [] && denominator > 0 && numerator <= denominator
    requires |h| <= U64_MAX && |h| * numerator <= U64_MAX
    ensures 1 <= ExactRank(|h|, numerator, denominator) <= |h|
    ensures var x := RankStatistic(h, ExactRank(|h|, numerator, denominator));
      var r := PercentileOf(h, numerator, denominator);
      && (r == 0 <==> x == 0)
      && (x > 0 ==> exists k: nat :: r == Pow2(k))
      && r <= x
      && (0 < x < 0x8000_0000_0000_0000 ==> x < 2 * r)
      && (x >= 0x8000_0000_0000_0000 ==> x < 4 * r)
  {
    Product(|h|, numerator);
    var rank := MachineRank(|h|, numerator, denominator);
    assert rank == ExactRank(|h|, numerator, denominator);
    RankWithinCount(|h|, numerator, denominator);
    PercentileIsTheStatisticsBucket(h, rank);
    BucketBrackets(RankStatistic(h, rank));
  }

  /** A larger percentile is never reported smaller, and none exceeds the maximum; saturated or not. */
  lemma PercentilesAreOrdered(h: seq<SlowUnit>, low: u64, high: u64, denominator: u64)
    requires denominator > 0 && low <= high <= denominator
    ensures PercentileOf(h, low, denominator) <= PercentileOf(h, high, denominator) <= Greatest(h)
  {
    if h != [] {
      var c := Sat(|h|);
      PercentileNeverFallsBack(h, low, denominator);
      PercentileNeverFallsBack(h, high, denominator);
      RankMonotone(c, low, high, denominator);
      var i := LeastReaching(h, MachineRank(c, low, denominator), 0).value;
      var j := LeastReaching(h, MachineRank(c, high, denominator), 0).value;
      assert i <= j;
      FloorMonotone(i, j);
      NothingBelowBucketZero(h);
      OneMoreBucket(h, j);
      var u := SomeoneInBucket(h, j);
      assert MachineRank(c, high, denominator) >= 1;
      BucketBrackets(u.durationMs);
      GreatestIsGreatest(h, u);
    }
  }

  lemma RankMonotone(count: u64, low: u64, high: u64, denominator: u64)
    requires denominator > 0 && low <= high
    ensures MachineRank(count, low, denominator) <= MachineRank(count, high, denominator)
  {
    Scale(low, high, count);
    assert count * low == low * count && count * high == high * count;
    CeilDivMonotone(SatMul(count, low), SatMul(count, high), denominator);
  }

  lemma CeilDivMonotone(a: nat, b: nat, d: nat)
    requires d > 0 && a <= b
    ensures CeilDiv(a, d) <= CeilDiv(b, d)
  {
    CeilDivLeast(a, d, CeilDiv(b, d));
  }

  lemma FloorMonotone(i: nat, j: nat)
    requires i <= j < BUCKETS
    ensures BucketFloor(i) <= BucketFloor(j)
  {
    if i > 0 {
      Pow2Monotone(i - 1, j - 1);
    }
  }

  lemma {:induction false} SomeoneInBucket(h: seq<SlowUnit>, i: nat) returns (u: SlowUnit)
    requires Weigh(h, InBucket(i)) > 0
    ensures u in h && BucketOf(u.durationMs) == i
  {
    u := h[|h| - 1];
    if BucketOf(u.durationMs) != i {
      u := SomeoneInBucket(h[..|h| - 1], i);
    }
  }

  lemma {:induction false} GreatestIsGreatest(h: seq<SlowUnit>, u: SlowUnit)
    requires u in h
    ensures u.durationMs <= Greatest(h)
  {
    if u != h[|h| - 1] {
      GreatestIsGreatest(h[..|h| - 1], u);
    }
  }

  // ----- Exactly when the saturating product spoils a percentile -----

  predicate RankIsExact(n: nat, numerator: nat, denominator: nat)
    requires denominator > 0
  {
    n * numerator <= denominator * CeilDiv(U64_MAX, denominator)
  }

  lemma RankIsExactWhen(n: u64, numerator: u64, denominator: u64)
    requires denominator > 0
    ensures RankIsExact(n, numerator, denominator)
       <==> MachineRank(n, numerator, denominator) == ExactRank(n, numerator, denominator)
  {
    Product(n, numerator);
    CappedQuotient(n * numerator, denominator);
  }

  lemma CappedQuotient(p: nat, d: nat)
    requires d > 0
    ensures p <= d * CeilDiv(U64_MAX, d) <==> CeilDiv(Sat(p), d) == CeilDiv(p, d)
  {
    var m, q := CeilDiv(U64_MAX, d), CeilDiv(p, d);
    if p > U64_MAX {
      CeilDivMonotone(U64_MAX, p, d);
      if p <= m * d {
        CeilDivLeast(p, d, m);
      }
      assert q == m ==> p <= m * d;
    }
  }

  /** The percentile is right for every history of `n` units. */
  ghost predicate RightForAll(n: nat, numerator: u64, denominator: u64)
    requires 0 < n <= U64_MAX && denominator > 0 && numerator <= denominator
  {
    forall h: seq<SlowUnit> :: |h| == n ==> RightFor(h, numerator, denominator)
  }

  ghost predicate RightFor(h: seq<SlowUnit>, numerator: u64, denominator: u64)
    requires h != [] && denominator > 0 && numerator <= denominator
  {
    var rank := ExactRank(|h|, numerator, denominator);
    rank <= |h| && PercentileOf(h, numerator, denominator) == BucketFloor(BucketOf(RankStatistic(h, rank)))
  }

  lemma PercentileExactIff(n: nat, numerator: u64, denominator: u64)
    requires 0 < n <= U64_MAX && denominator > 0 && numerator <= denominator
    ensures RightForAll(n, numerator, denominator) <==> RankIsExact(n, numerator, denominator)
  {
    RankIsExactWhen(n, numerator, denominator);
    var rank, exact := MachineRank(n, numerator, denominator), ExactRank(n, numerator, denominator);
    RankWithinCount(n, numerator, denominator);
    if rank == exact {
      forall h: seq<SlowUnit> | |h| == n ensures RightFor(h, numerator, denominator) {
        PercentileIsTheStatisticsBucket(h, rank);
      }
    } else {
      MachineRankIsLow(n, numerator, denominator);
      var h := OnesAndZeros(n, rank);
      if exact <= n {
        PercentileIsTheStatisticsBucket(h, rank);
        SteppedStatistic(n, rank, rank);
        SteppedStatistic(n, rank, exact);
        assert BucketFloor(BucketOf(1)) == 1;
      }
      assert !RightFor(h, numerator, denominator);
    }
  }

  lemma MachineRankIsLow(n: u64, numerator: u64, denominator: u64)
    requires denominator > 0
    ensures MachineRank(n, numerator, denominator) <= ExactRank(n, numerator, denominator)
  {
    Product(n, numerator);
    CeilDivMonotone(SatMul(n, numerator), n * numerator, denominator);
  }

  /** A history of `n` units of which `zeros` took no time and the others one millisecond. */
  ghost function OnesAndZeros(n: nat, zeros: nat): (h: seq<SlowUnit>)
    requires zeros <= n
    ensures |h| == n
  {
    seq(n, i => SlowUnit("", if i < n - zeros then 1 else 0))
  }

  lemma SteppedStatistic(n: nat, zeros: nat, rank: nat)
    requires zeros <= n && 1 <= rank <= n
    ensures RankStatistic(OnesAndZeros(n, zeros), rank) == if rank <= zeros then 0 else 1
  {
    SortOfSorted(OnesAndZeros(n, zeros), Duration);
  }
}
