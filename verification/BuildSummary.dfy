/** What the fields of a timing summary say of all units of a build. */
module BuildSummary {
  import opened Options
  import opened Machine
  import opened StableSort
  import opened BuildTiming

  /** The durations of all units together. */
  function TotalOf(h: seq<SlowUnit>): nat {
    if h == [] then 0 else TotalOf(h[..|h| - 1]) + h[|h| - 1].durationMs
  }

  /** How many units took at most, and less than, a duration. */
  function UpTo(h: seq<SlowUnit>, x: int): nat {
    if h == [] then 0 else UpTo(h[..|h| - 1], x) + if h[|h| - 1].durationMs <= x then 1 else 0
  }

  /** `x` is the duration of the unit of this rank among all, counted from the shortest. */
  ghost predicate HasRank(h: seq<SlowUnit>, rank: nat, x: nat) {
    (exists u :: u in h && u.durationMs == x) && UpTo(h, x - 1) < rank <= UpTo(h, x)
  }

  /** A power of two at most the value, by less than a factor of two - four from the last bucket on - or both zero. */
  ghost predicate Brackets(r: nat, x: nat) {
    && (r == 0 <==> x == 0)
    && (x > 0 ==> exists k: nat :: r == Pow2(k))
    && r <= x
    && (0 < x < 0x8000_0000_0000_0000 ==> x < 2 * r)
    && (x >= 0x8000_0000_0000_0000 ==> x < 4 * r)
  }

  // ----- Counting is weighing -----

  function AtMost(x: int): SlowUnit -> nat {
    (u: SlowUnit) => if u.durationMs <= x then 1 else 0
  }

  lemma {:induction false} CountsAreWeights(h: seq<SlowUnit>, x: int)
    ensures UpTo(h, x) == Weigh(h, AtMost(x)) && TotalOf(h) == Weigh(h, Duration)
  {
    if h != [] {
      CountsAreWeights(h[..|h| - 1], x);
    }
  }

  /** On a descending sequence, the units up to a duration are a suffix. */
  lemma {:induction false} ShortUnitsAreASuffix(s: seq<SlowUnit>, x: int, rank: nat)
    requires Descending(s, Duration) && 1 <= rank <= |s|
    ensures UpTo(s, x) >= rank <==> s[|s| - rank].durationMs <= x
  {
    var last, rest := s[|s| - 1], s[..|s| - 1];
    assert Duration(s[|s| - rank]) >= Duration(last);
    if last.durationMs > x {
      NoneSoShort(s, x);
    } else if rank > 1 {
      ShortUnitsAreASuffix(rest, x, rank - 1);
      assert rest[|rest| - (rank - 1)] == s[|s| - rank];
    }
  }

  lemma {:induction false} NoneSoShort(s: seq<SlowUnit>, x: int)
    requires Descending(s, Duration) && (s != [] ==> s[|s| - 1].durationMs > x)
    ensures UpTo(s, x) == 0
  {
    if s != [] {
      var rest := s[..|s| - 1];
      if rest != [] {
        assert Duration(rest[|rest| - 1]) >= Duration(s[|s| - 1]);
      }
      NoneSoShort(rest, x);
    }
  }

  /** The statistic of a rank is the duration of that rank. */
  lemma StatisticHasRank(h: seq<SlowUnit>, rank: nat)
    requires 1 <= rank <= |h|
    ensures HasRank(h, rank, RankStatistic(h, rank))
  {
    var s := SortDescending(h, Duration);
    var x: int := RankStatistic(h, rank);
    SortIsDescending(h, Duration);
    ShortUnitsAreASuffix(s, x, rank);
    ShortUnitsAreASuffix(s, x - 1, rank);
    SortCounts(h, x);
    SortCounts(h, x - 1);
    assert s[|s| - rank] in s;
    hide SortDescending;
    hide UpTo;
  }

  lemma SortCounts(h: seq<SlowUnit>, x: int)
    ensures UpTo(SortDescending(h, Duration), x) == UpTo(h, x)
  {
    CountsAreWeights(h, x);
    CountsAreWeights(SortDescending(h, Duration), x);
    SortWeighs(h, Duration, AtMost(x));
    hide *;
  }

  // ----- Extremes -----

  lemma {:induction false} ExtremesBound(h: seq<SlowUnit>)
    ensures forall u :: u in h ==> Least(h) <= u.durationMs <= Greatest(h)
    ensures h != [] ==> exists u :: u in h && u.durationMs == Least(h)
    ensures h != [] ==> exists u :: u in h && u.durationMs == Greatest(h)
    ensures h == [] ==> Greatest(h) == 0
  {
    if h != [] {
      var init, last := h[..|h| - 1], h[|h| - 1];
      ExtremesBound(init);
      assert h == init + [last];
      assert last in h && forall u :: u in init ==> u in h;
      if init == [] {
        assert Least(h) == last.durationMs && Greatest(h) == last.durationMs;
      }
    }
  }

  // ----- The slowest units -----

  lemma {:induction false} SortPermutes(h: seq<SlowUnit>)
    ensures multiset(SortDescending(h, Duration)) == multiset(h)
  {
    if h != [] {
      var init, last := h[..|h| - 1], h[|h| - 1];
      SortPermutes(init);
      InsertAdds(SortDescending(init, Duration), last);
      assert h == init + [last];
    }
  }

  lemma {:induction false} InsertAdds(s: seq<SlowUnit>, u: SlowUnit)
    ensures multiset(Insert(s, u, Duration)) == multiset(s) + multiset{u}
  {
    if s != [] && Duration(s[0]) >= Duration(u) {
      InsertAdds(s[1..], u);
      assert s == [s[0]] + s[1..];
    }
  }

  /** Ten units at most, longest first; every other unit is at most as long as the shortest of them. */
  ghost predicate AreTheSlowest(slowest: seq<SlowUnit>, h: seq<SlowUnit>) {
    && |slowest| == (if |h| < 10 then |h| else 10)
    && (forall i, j :: 0 <= i < j < |slowest| ==> slowest[i].durationMs >= slowest[j].durationMs)
    && multiset(slowest) <= multiset(h)
    && forall u, i :: u in multiset(h) - multiset(slowest) && 0 <= i < |slowest| ==>
         u.durationMs <= slowest[i].durationMs
  }

  lemma SlowestAre(h: seq<SlowUnit>)
    ensures AreTheSlowest(Slowest(h), h)
  {
    var all, taken := SortDescending(h, Duration), Slowest(h);
    var rest := all[|taken|..];
    SortIsDescending(h, Duration);
    SortPermutes(h);
    SlowestIs(h);
    hide *;
    assert all == taken + rest;
    DescendingParts(taken, rest);
    PartsAre(taken, rest, h);
  }

  lemma SlowestIs(h: seq<SlowUnit>)
    ensures |Slowest(h)| == if |h| < 10 then |h| else 10
    ensures Slowest(h) == SortDescending(h, Duration)[..|Slowest(h)|]
  {
    hide SortDescending;
  }

  lemma PartsAre(taken: seq<SlowUnit>, rest: seq<SlowUnit>, h: seq<SlowUnit>)
    requires multiset(taken + rest) == multiset(h) && |taken| == if |h| < 10 then |h| else 10
    requires forall i, j :: 0 <= i < j < |taken| ==> taken[i].durationMs >= taken[j].durationMs
    requires forall u, i :: u in multiset(rest) && 0 <= i < |taken| ==> u.durationMs <= taken[i].durationMs
    ensures AreTheSlowest(taken, h)
  {
    assert multiset(h) == multiset(taken) + multiset(rest);
    assert multiset(h) - multiset(taken) == multiset(rest);
  }

  lemma DescendingParts(taken: seq<SlowUnit>, rest: seq<SlowUnit>)
    requires Descending(taken + rest, Duration)
    ensures forall i, j :: 0 <= i < j < |taken| ==> taken[i].durationMs >= taken[j].durationMs
    ensures forall u, i :: u in multiset(rest) && 0 <= i < |taken| ==> u.durationMs <= taken[i].durationMs
  {
    var all := taken + rest;
    forall i, j | 0 <= i < j < |taken| ensures taken[i].durationMs >= taken[j].durationMs {
      assert Duration(all[i]) >= Duration(all[j]);
    }
    forall u, i | u in multiset(rest) && 0 <= i < |taken| ensures u.durationMs <= taken[i].durationMs {
      var j :| 0 <= j < |rest| && rest[j] == u;
      assert Duration(all[i]) >= Duration(all[|taken| + j]);
    }
  }

  // ----- The summary -----

  /** Half of the units, and nineteen of twenty, rounded up. */
  lemma Ranks(n: nat)
    requires n > 0
    ensures ExactRank(n, 50, 100) == (n + 1) / 2 && ExactRank(n, 95, 100) == (19 * n + 19) / 20
    ensures 1 <= (n + 1) / 2 <= n && 1 <= (19 * n + 19) / 20 <= n
  {
  }

  ghost predicate CountsRight(s: UnitSummary, h: seq<SlowUnit>) {
    && s.count == (if |h| <= U64_MAX then |h| else U64_MAX)
    && s.totalDurationMs == (if TotalOf(h) <= U64_MAX then TotalOf(h) else U64_MAX)
  }

  /** The extremes bound every duration and are durations; without units they are zero. */
  ghost predicate ExtremesRight(s: UnitSummary, h: seq<SlowUnit>) {
    if h == [] then s.minDurationMs == 0 == s.maxDurationMs
    else
      && (forall u :: u in h ==> s.minDurationMs <= u.durationMs <= s.maxDurationMs)
      && (exists u :: u in h && u.durationMs == s.minDurationMs)
      && (exists u :: u in h && u.durationMs == s.maxDurationMs)
  }

  /** Half of the units take about the first percentile or less, nineteen of twenty the second. */
  ghost predicate PercentilesRight(s: UnitSummary, h: seq<SlowUnit>) {
    && (exists x :: HasRank(h, (|h| + 1) / 2, x) && Brackets(s.p50DurationMs, x))
    && (exists x :: HasRank(h, (19 * |h| + 19) / 20, x) && Brackets(s.p95DurationMs, x))
  }

  /**
   Every field of a summary, said of the units themselves: their number and total as far as a word holds them, the
   shortest and the longest, the two percentiles in order and - before a word overflows - each bracketing the duration
   of its rank, and the ten slowest.
   */
  lemma SummaryTells(kind: string, group: Option<string>, h: seq<SlowUnit>)
    ensures var s := SummaryOf(kind, group, h);
      && s.kind == kind && s.group == group
      && CountsRight(s, h) && ExtremesRight(s, h) && AreTheSlowest(s.slowest, h)
      && s.p50DurationMs <= s.p95DurationMs <= s.maxDurationMs
      && (0 < 100 * |h| <= U64_MAX ==> PercentilesRight(s, h))
  {
    SummaryFields(kind, group, h);
    CountsTold(SummaryOf(kind, group, h), h);
    ExtremesTold(SummaryOf(kind, group, h), h);
    PercentilesAreOrdered(h, 50, 95, 100);
    SlowestAre(h);
    if 0 < 100 * |h| <= U64_MAX {
      PercentilesTold(SummaryOf(kind, group, h), h);
    }
    hide *;
  }

  lemma CountsTold(s: UnitSummary, h: seq<SlowUnit>)
    requires s.count == Sat(|h|) && s.totalDurationMs == Sat(Weigh(h, Duration))
    ensures CountsRight(s, h)
  {
    CountsAreWeights(h, 0);
    hide Weigh;
    hide TotalOf;
  }

  lemma ExtremesTold(s: UnitSummary, h: seq<SlowUnit>)
    requires s.minDurationMs == (if h == [] then 0 else Least(h)) && s.maxDurationMs == Greatest(h)
    ensures ExtremesRight(s, h)
  {
    ExtremesBound(h);
    hide Least;
    hide Greatest;
  }

  lemma PercentilesTold(s: UnitSummary, h: seq<SlowUnit>)
    requires 0 < 100 * |h| <= U64_MAX
    requires s.p50DurationMs == PercentileOf(h, 50, 100) && s.p95DurationMs == PercentileOf(h, 95, 100)
    ensures PercentilesRight(s, h)
  {
    PercentileBrackets(h, 50);
    PercentileBrackets(h, 95);
    Ranks(|h|);
    hide HasRank;
    hide Brackets;
    hide ExactRank;
    hide PercentileOf;
  }

  lemma SummaryFields(kind: string, group: Option<string>, h: seq<SlowUnit>)
    ensures var s := SummaryOf(kind, group, h);
      && s.kind == kind && s.group == group
      && s.count == Sat(|h|) && s.totalDurationMs == Sat(Weigh(h, Duration))
      && (h != [] ==> s.minDurationMs == Least(h)) && (h == [] ==> s.minDurationMs == 0)
      && s.p50DurationMs == PercentileOf(h, 50, 100) && s.p95DurationMs == PercentileOf(h, 95, 100)
      && s.maxDurationMs == Greatest(h) && s.slowest == Slowest(h)
  {
    hide Weigh;
    hide Least;
    hide Greatest;
    hide Slowest;
    hide PercentileOf;
  }

  lemma PercentileBrackets(h: seq<SlowUnit>, numerator: u64)
    requires 0 < 100 * |h| <= U64_MAX && numerator <= 100
    ensures exists x ::
      HasRank(h, ExactRank(|h|, numerator, 100), x) && Brackets(PercentileOf(h, numerator, 100), x)
  {
    var rank := ExactRank(|h|, numerator, 100);
    Scale(numerator, 100, |h|);
    assert |h| * numerator == numerator * |h|;
    PercentileBracketsTheStatistic(h, numerator, 100);
    StatisticHasRank(h, rank);
    assert Brackets(PercentileOf(h, numerator, 100), RankStatistic(h, rank));
    hide *;
  }
}
