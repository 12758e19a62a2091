/** The bounded, expiring result cache, against the log of everything that was done to it. */
module McpCache {
  import opened Options

  datatype Op<V> = Insert(key: string, value: V, at: nat) | Invalidate(key: string) | Clear

  /** The last insertion of a key that nothing has undone, and how many insertions came after it. */
  datatype Live<V> = Live(value: V, at: nat, later: nat)

  function Latest<V>(log: seq<Op<V>>, key: string): Option<Live<V>> {
    if log == [] then None
    else
      var before := Latest(log[..|log| - 1], key);
      match log[|log| - 1]
      case Insert(k, value, at) =>
        if k == key then Some(Live(value, at, 0))
        else if before.Some? then Some(before.value.(later := before.value.later + 1))
        else None
      case Invalidate(k) => if k == key then None else before
      case Clear => None
  }

  function LastInsertion<V>(log: seq<Op<V>>): int {
    if log == [] then -1
    else if log[|log| - 1].Insert? then log[|log| - 1].at
    else LastInsertion(log[..|log| - 1])
  }

  /** Every insertion has a later instant than the last one before it. */
  predicate StrictTimes<V>(log: seq<Op<V>>) {
    log == [] ||
    (StrictTimes(log[..|log| - 1]) &&
     (log[|log| - 1].Insert? ==> LastInsertion(log[..|log| - 1]) < log[|log| - 1].at))
  }

  lemma {:induction false} LastInsertionIs<V>(log: seq<Op<V>>)
    ensures LastInsertion(log) == -1 <==> forall i :: 0 <= i < |log| ==> !log[i].Insert?
    ensures LastInsertion(log) != -1 ==>
      exists i :: 0 <= i < |log| && log[i].Insert? && log[i].at == LastInsertion(log) &&
        forall j :: i < j < |log| ==> !log[j].Insert?
  {
    if log != [] && !log[|log| - 1].Insert? {
      var before := log[..|log| - 1];
      LastInsertionIs(before);
      assert forall i :: 0 <= i < |before| ==> before[i] == log[i];
    }
  }

  /** Of any two insertions the later one has the later instant. */
  lemma {:induction false} StrictTimesIff<V>(log: seq<Op<V>>)
    ensures StrictTimes(log) <==>
      forall i, j :: 0 <= i < j < |log| && log[i].Insert? && log[j].Insert? ==> log[i].at < log[j].at
  {
    if log != [] {
      var before := log[..|log| - 1];
      StrictTimesIff(before);
      LastInsertionIs(before);
      assert forall i :: 0 <= i < |before| ==> before[i] == log[i];
    }
  }

  /** Time since an instant; an instant still to come counts as now. */
  function Elapsed(at: nat, now: nat): nat {
    if now >= at then now - at else 0
  }

  function Bound(maxEntries: nat): nat {
    if maxEntries == 0 then 1 else maxEntries
  }

  lemma Snoc<V>(log: seq<Op<V>>, op: Op<V>)
    ensures (log + [op])[..|log + [op]| - 1] == log
  {
  }

  lemma {:induction false} LatestWithinTimes<V>(log: seq<Op<V>>, key: string)
    requires StrictTimes(log)
    ensures Latest(log, key).Some? ==> Latest(log, key).value.at <= LastInsertion(log)
  {
    if log != [] {
      LatestWithinTimes(log[..|log| - 1], key);
    }
  }

  /** Under strict times, a key with an earlier instant has more insertions after it. */
  lemma {:induction false} EarlierMeansMoreLater<V>(log: seq<Op<V>>, j: string, k: string)
    requires StrictTimes(log) && j != k
    requires Latest(log, j).Some? && Latest(log, k).Some?
    ensures Latest(log, j).value.later != Latest(log, k).value.later
    ensures Latest(log, j).value.at < Latest(log, k).value.at
       <==> Latest(log, j).value.later > Latest(log, k).value.later
  {
    var before := log[..|log| - 1];
    LatestWithinTimes(before, j);
    LatestWithinTimes(before, k);
    if Latest(before, j).Some? && Latest(before, k).Some? {
      EarlierMeansMoreLater(before, j, k);
    }
  }

  /** Distinct ranks below `n` belong to at most `n` keys. */
  lemma {:induction false} Pigeonhole(keys: set<string>, rank: map<string, nat>, n: nat)
    requires forall k :: k in keys ==> k in rank && rank[k] < n
    requires forall j, k :: j in keys && k in keys && j != k ==> rank[j] != rank[k]
    ensures |keys| <= n
  {
    if n == 0 {
      if k :| k in keys {
        assert false;
      }
      assert keys == {};
    } else if k :| k in keys && rank[k] == n - 1 {
      Pigeonhole(keys - {k}, rank, n - 1);
      assert |keys| == |keys - {k}| + 1;
    } else {
      Pigeonhole(keys, rank, n - 1);
    }
  }

  datatype CacheEntry<V> = CacheEntry(result: V, insertedAt: nat)

  /** An entry is the last live insertion of its key. */
  ghost predicate Sound<V(!new)>(entries: map<string, CacheEntry<V>>, log: seq<Op<V>>) {
    forall k :: k in entries ==>
      Latest(log, k).Some? && entries[k] == CacheEntry(Latest(log, k).value.value, Latest(log, k).value.at)
  }

  /** Nothing is forgotten before `bound` further insertions. */
  ghost predicate Retained<V(!new)>(entries: map<string, CacheEntry<V>>, log: seq<Op<V>>, bound: nat) {
    forall k :: Latest(log, k).Some? && Latest(log, k).value.later < bound ==> k in entries
  }

  lemma {:induction false} OldestExists<V>(entries: map<string, CacheEntry<V>>, keys: set<string>)
    requires keys != {} && keys <= entries.Keys
    ensures exists o :: o in keys && forall k :: k in keys ==> entries[o].insertedAt <= entries[k].insertedAt
    decreases keys
  {
    var x :| x in keys;
    if keys == {x} {
      assert forall k :: k in keys ==> k == x;
    } else {
      OldestExists(entries, keys - {x});
      var o :| o in keys - {x} && forall k :: k in keys - {x} ==> entries[o].insertedAt <= entries[k].insertedAt;
      var least := if entries[x].insertedAt <= entries[o].insertedAt then x else o;
      assert forall k :: k in keys ==> k == x || k in keys - {x};
      assert least in keys && forall k :: k in keys ==> entries[least].insertedAt <= entries[k].insertedAt;
    }
  }

  /** The oldest of several entries has at least as many later insertions as there are other entries. */
  lemma OldestIsOvertaken<V(!new)>(entries: map<string, CacheEntry<V>>, log: seq<Op<V>>, oldest: string)
    requires Sound(entries, log) && StrictTimes(log) && oldest in entries
    requires forall k :: k in entries ==> entries[oldest].insertedAt <= entries[k].insertedAt
    ensures Latest(log, oldest).value.later >= |entries| - 1
  {
    var others := entries.Keys - {oldest};
    var rank := map k | k in others :: Latest(log, k).value.later;
    forall k | k in others ensures rank[k] < Latest(log, oldest).value.later {
      EarlierMeansMoreLater(log, oldest, k);
      EarlierMeansMoreLater(log, k, oldest);
    }
    forall j, k | j in others && k in others && j != k ensures rank[j] != rank[k] {
      EarlierMeansMoreLater(log, j, k);
    }
    Pigeonhole(others, rank, Latest(log, oldest).value.later);
    assert |others| == |entries.Keys| - 1;
  }

  predicate IsOldest<V>(entries: map<string, CacheEntry<V>>, oldest: string) {
    oldest in entries && forall k :: k in entries ==> entries[oldest].insertedAt <= entries[k].insertedAt
  }

  /** Evicting the oldest of enough entries costs only a key that was due to go. */
  lemma EvictionKeeps<V(!new)>(entries: map<string, CacheEntry<V>>, log: seq<Op<V>>, oldest: string, bound: nat)
    requires Sound(entries, log) && (StrictTimes(log) ==> Retained(entries, log, bound))
    requires oldest in entries && |entries| >= bound > 0
    requires forall k :: k in entries ==> entries[oldest].insertedAt <= entries[k].insertedAt
    ensures var kept := map k | k in entries && k != oldest :: entries[k];
      Sound(kept, log) && (StrictTimes(log) ==> Retained(kept, log, bound - 1))
  {
    if StrictTimes(log) {
      OldestIsOvertaken(entries, log, oldest);
    }
  }

  /** Inserting over entries that missed at most what one more insertion may cost. */
  lemma InsertionKeeps<V(!new)>(kept: map<string, CacheEntry<V>>, log: seq<Op<V>>, key: string, value: V,
                                at: nat, bound: nat)
    requires Sound(kept, log)
    requires bound > 0
    requires StrictTimes(log) ==> Retained(kept, log, bound - 1)
    ensures var log', entries' := log + [Insert(key, value, at)], kept[key := CacheEntry(value, at)];
      Sound(entries', log') && (StrictTimes(log') ==> Retained(entries', log', bound))
  {
    Snoc(log, Insert(key, value, at));
  }

  /** Removing a key from the entries and from the log alike. */
  lemma InvalidationKeeps<V(!new)>(entries: map<string, CacheEntry<V>>, kept: map<string, CacheEntry<V>>,
                                   log: seq<Op<V>>,
                                   key: string, bound: nat)
    requires Sound(entries, log) && (StrictTimes(log) ==> Retained(entries, log, bound))
    requires kept == map k | k in entries && k != key :: entries[k]
    ensures var log' := log + [Op<V>.Invalidate(key)];
      Sound(kept, log') && (StrictTimes(log') ==> Retained(kept, log', bound))
  {
    Snoc(log, Op<V>.Invalidate(key));
  }

  /** What one operation may leave behind; the hash map chooses among several oldest entries. */
  ghost predicate CanStep<V(!new)>(entries: map<string, CacheEntry<V>>, op: Op<V>, entries': map<string, CacheEntry<V>>,
                                   maxEntries: nat)
  {
    match op
    case Insert(key, value, at) =>
      if |entries| >= maxEntries && entries != map[]
      then exists oldest ::
        IsOldest(entries, oldest) && entries' == (entries - {oldest})[key := CacheEntry(value, at)]
      else entries' == entries[key := CacheEntry(value, at)]
    case Invalidate(key) => entries' == entries - {key}
    case Clear => entries' == map[]
  }

  lemma OneLess<V>(entries: map<string, V>, key: string)
    requires key in entries
    ensures var fewer := map k | k in entries && k != key :: entries[k];
      fewer == entries - {key} && |fewer| == |entries| - 1
  {
    var fewer := map k | k in entries && k != key :: entries[k];
    assert fewer.Keys == entries.Keys - {key};
  }

  lemma OneMore<V>(entries: map<string, V>, key: string, value: V)
    ensures |entries[key := value]| <= |entries| + 1
  {
    assert entries[key := value].Keys == entries.Keys + {key};
  }

  class L1Cache<V(!new)> {
    var entries: map<string, CacheEntry<V>>
    const ttl: nat
    const maxEntries: nat
    ghost var log: seq<Op<V>>

    ghost predicate Valid()
      reads this
    {
      && Sound(entries, log)
      && |entries| <= Bound(maxEntries)
      && (StrictTimes(log) ==> Retained(entries, log, Bound(maxEntries)))
    }

    constructor (ttl: nat, maxEntries: nat)
      ensures Valid() && log == [] && this.ttl == ttl && this.maxEntries == maxEntries
    {
      this.ttl, this.maxEntries := ttl, maxEntries;
      entries, log := map[], [];
    }

    /**
     A hit is the latest value inserted for the key since it was last invalidated or the cache cleared, and younger
     than the time to live. A miss means there is none, it is too old, or enough insertions came after it.
     */
    method Get(key: string, now: nat) returns (r: Option<V>)
      requires Valid()
      ensures r.Some? ==>
        && Latest(log, key).Some? && r.value == Latest(log, key).value.value
        && ttl > 0 && now < Latest(log, key).value.at + ttl
      ensures r.None? ==>
        || Latest(log, key).None?
        || ttl == 0 || now >= Latest(log, key).value.at + ttl
        || (StrictTimes(log) ==> Latest(log, key).value.later >= Bound(maxEntries))
    {
      if key in entries && Elapsed(entries[key].insertedAt, now) < ttl {
        r := Some(entries[key].result);
      } else {
        r := None;
      }
    }

    method Insert(key: string, result: V, now: nat)
      requires Valid()
      modifies this
      ensures Valid()
      ensures log == old(log) + [Op.Insert(key, result, now)]
      ensures CanStep(old(entries), Op.Insert(key, result, now), entries, maxEntries)
      ensures 0 < |entries| && (|entries| <= maxEntries || |entries| == 1)
    {
      ghost var before := entries;
      hide Sound;
      if |entries| >= maxEntries && entries != map[] {
        OldestExists(entries, entries.Keys);
        var oldest :|
          oldest in entries && forall k :: k in entries ==> entries[oldest].insertedAt <= entries[k].insertedAt;
        EvictionKeeps(entries, log, oldest, Bound(maxEntries));
        entries := map k | k in entries && k != oldest :: entries[k];
        OneLess(before, oldest);
        assert IsOldest(before, oldest);
      }
      hide Retained;
      InsertionKeeps(entries, log, key, result, now, Bound(maxEntries));
      OneMore(entries, key, CacheEntry(result, now));
      entries := entries[key := CacheEntry(result, now)];
      log := log + [Op.Insert(key, result, now)];
    }

    method Invalidate(key: string)
      requires Valid()
      modifies this
      ensures Valid() && log == old(log) + [Op.Invalidate(key)]
      ensures CanStep(old(entries), Op<V>.Invalidate(key), entries, maxEntries)
    {
      hide Sound;
      hide Retained;
      var kept := map k | k in entries && k != key :: entries[k];
      assert kept.Keys == entries.Keys - {key};
      InvalidationKeeps(entries, kept, log, key, Bound(maxEntries));
      entries := kept;
      log := log + [Op.Invalidate(key)];
    }

    method Clear()
      requires Valid()
      modifies this
      ensures Valid() && log == old(log) + [Op.Clear]
      ensures CanStep(old(entries), Op<V>.Clear, entries, maxEntries)
    {
      entries := map[];
      Snoc(log, Op<V>.Clear);
      log := log + [Op.Clear];
    }
  }

  // ----- When retention can fail -----

  /** The entries a cache can hold after the operations of the log. */
  ghost predicate Reaches<V(!new)>(log: seq<Op<V>>, entries: map<string, CacheEntry<V>>, maxEntries: nat)
    decreases |log|
  {
    if log == [] then entries == map[]
    else
      var init, op := log[..|log| - 1], log[|log| - 1];
      exists before :: Reaches(init, before, maxEntries) && CanStep(before, op, entries, maxEntries)
  }

  lemma ReachesOn<V(!new)>(log: seq<Op<V>>, before: map<string, CacheEntry<V>>, op: Op<V>,
                           entries: map<string, CacheEntry<V>>, maxEntries: nat)
    requires Reaches(log, before, maxEntries) && CanStep(before, op, entries, maxEntries)
    ensures Reaches(log + [op], entries, maxEntries)
  {
    Snoc(log, op);
    hide CanStep;
  }

  /** Instants never go back, but may stand still. */
  predicate SteadyTimes<V>(log: seq<Op<V>>) {
    log == [] ||
    (SteadyTimes(log[..|log| - 1]) &&
     (log[|log| - 1].Insert? ==> LastInsertion(log[..|log| - 1]) <= log[|log| - 1].at))
  }

  /** Of any two insertions the later one has no earlier instant. */
  lemma {:induction false} SteadyTimesIff<V>(log: seq<Op<V>>)
    ensures SteadyTimes(log) <==>
      forall i, j :: 0 <= i < j < |log| && log[i].Insert? && log[j].Insert? ==> log[i].at <= log[j].at
  {
    if log != [] {
      var before := log[..|log| - 1];
      SteadyTimesIff(before);
      LastInsertionIs(before);
      assert forall i :: 0 <= i < |before| ==> before[i] == log[i];
    }
  }

  /** A run that loses a key before `Bound(maxEntries)` later insertions. */
  ghost predicate Loses<V(!new)>(log: seq<Op<V>>, entries: map<string, CacheEntry<V>>, maxEntries: nat) {
    SteadyTimes(log) && Reaches(log, entries, maxEntries) && !Retained(entries, log, Bound(maxEntries))
  }

  lemma StepKeepsLast<V(!new)>(entries: map<string, CacheEntry<V>>, log: seq<Op<V>>, op: Op<V>,
                               entries': map<string, CacheEntry<V>>, maxEntries: nat)
    requires CanStep(entries, op, entries', maxEntries)
    requires Retained(entries, log, 1)
    ensures Retained(entries', log + [op], 1)
  {
    Snoc(log, op);
  }

  /** The last insertion always stays, whatever the instants. */
  lemma {:induction false} LastStays<V(!new)>(log: seq<Op<V>>, entries: map<string, CacheEntry<V>>, maxEntries: nat)
    requires Reaches(log, entries, maxEntries)
    ensures Retained(entries, log, 1)
    decreases |log|
  {
    if log != [] {
      var init, op := log[..|log| - 1], log[|log| - 1];
      var before :| Reaches(init, before, maxEntries) && CanStep(before, op, entries, maxEntries);
      LastStays(init, before, maxEntries);
      StepKeepsLast(before, init, op, entries, maxEntries);
      assert log == init + [op];
    }
  }

  function Key(i: nat): (key: string)
    ensures |key| == i
  {
    seq(i, _ => 'k')
  }

  lemma KeysDiffer(i: nat, j: nat)
    ensures Key(i) == Key(j) <==> i == j
  {
  }

  /** Insertions of `n` keys at one instant. */
  ghost function Burst<V>(v: V, n: nat): seq<Op<V>> {
    if n == 0 then [] else Burst(v, n - 1) + [Op.Insert(Key(n - 1), v, 0)]
  }

  ghost function BurstEntries<V>(v: V, n: nat): map<string, CacheEntry<V>> {
    if n == 0 then map[] else BurstEntries(v, n - 1)[Key(n - 1) := CacheEntry(v, 0)]
  }

  lemma {:induction false} BurstKeys<V>(v: V, n: nat)
    ensures forall key :: key in BurstEntries(v, n) <==> |key| < n && key == Key(|key|)
  {
    if n > 0 {
      BurstKeys(v, n - 1);
      var last := Key(n - 1);
      assert |last| == n - 1;
      hide Key;
    }
  }

  lemma {:induction false} BurstHolds<V>(v: V, n: nat)
    ensures |BurstEntries(v, n)| == n
    ensures forall key :: key in BurstEntries(v, n) ==> BurstEntries(v, n)[key] == CacheEntry(v, 0)
    ensures Key(n) !in BurstEntries(v, n)
    ensures n > 0 ==> Key(n - 1) in BurstEntries(v, n)
  {
    BurstKeys(v, n);
    if n > 0 {
      BurstHolds(v, n - 1);
      hide Key;
      assert BurstEntries(v, n).Keys == BurstEntries(v, n - 1).Keys + {Key(n - 1)};
    }
  }

  /** The last insertion of a burst, into a cache with room. */
  lemma BurstStep<V(!new)>(v: V, n: nat, maxEntries: nat)
    requires 0 < n <= maxEntries
    ensures Burst(v, n) == Burst(v, n - 1) + [Op.Insert(Key(n - 1), v, 0)]
    ensures CanStep(BurstEntries(v, n - 1), Op.Insert(Key(n - 1), v, 0), BurstEntries(v, n), maxEntries)
  {
    BurstHolds(v, n - 1);
    hide Key;
  }

  lemma {:induction false} BurstReached<V(!new)>(v: V, n: nat, maxEntries: nat)
    requires n <= maxEntries
    ensures Reaches(Burst(v, n), BurstEntries(v, n), maxEntries)
  {
    if n > 0 {
      BurstReached(v, n - 1, maxEntries);
      BurstStep(v, n, maxEntries);
      hide *;
      ReachesOn(Burst(v, n - 1), BurstEntries(v, n - 1), Op.Insert(Key(n - 1), v, 0), BurstEntries(v, n), maxEntries);
    }
  }

  lemma {:induction false} BurstIsSteady<V>(v: V, n: nat)
    ensures SteadyTimes(Burst(v, n)) && LastInsertion(Burst(v, n)) <= 0
  {
    if n > 0 {
      BurstIsSteady(v, n - 1);
      Snoc(Burst(v, n - 1), Op.Insert(Key(n - 1), v, 0));
      hide Key;
    }
  }

  /** The newest key of a burst, after one insertion more. */
  lemma NewestIsLive<V>(v: V, n: nat)
    requires n > 0
    ensures Latest(Burst(v, n) + [Op.Insert(Key(n), v, 0)], Key(n - 1)) == Some(Live(v, 0, 1))
  {
    Snoc(Burst(v, n), Op.Insert(Key(n), v, 0));
    Snoc(Burst(v, n - 1), Op.Insert(Key(n - 1), v, 0));
    KeysDiffer(n - 1, n);
    hide Key;
    assert Latest(Burst(v, n), Key(n - 1)) == Some(Live(v, 0, 0));
  }

  /** As many insertions as fit, at one instant, and one more that costs the newest key its place. */
  lemma OneMoreLosesTheNewest<V(!new)>(v: V, n: nat)
    requires n >= 2
    ensures var log := Burst(v, n) + [Op.Insert(Key(n), v, 0)];
      var entries := (BurstEntries(v, n) - {Key(n - 1)})[Key(n) := CacheEntry(v, 0)];
      Loses(log, entries, n)
  {
    var full, op := BurstEntries(v, n), Op.Insert(Key(n), v, 0);
    var entries := (full - {Key(n - 1)})[Key(n) := CacheEntry(v, 0)];
    BurstHolds(v, n);
    BurstReached(v, n, n);
    BurstIsSteady(v, n);
    Snoc(Burst(v, n), op);
    NewestIsLive(v, n);
    KeysDiffer(n - 1, n);
    hide Key;
    hide Burst;
    hide BurstEntries;
    hide Reaches;
    hide Latest;
    assert IsOldest(full, Key(n - 1));
    ReachesOn(Burst(v, n), full, op, entries, n);
    assert Key(n - 1) !in entries;
  }

  /**
   With instants that may stand still, some run loses a key before its bound of later insertions exactly when more
   than one entry may be held.
   */
  lemma RetentionBreakableIff<V(!new)>(v: V, maxEntries: nat)
    ensures (exists log: seq<Op<V>>, entries :: Loses(log, entries, maxEntries)) <==> maxEntries >= 2
  {
    if maxEntries >= 2 {
      OneMoreLosesTheNewest(v, maxEntries);
    } else {
      forall log: seq<Op<V>>, entries ensures !Loses(log, entries, maxEntries) {
        if Reaches(log, entries, maxEntries) {
          LastStays(log, entries, maxEntries);
        }
      }
    }
  }
}
