/**
 A stable descending sort by a numeric key, and what the rest of the project needs to know about it:
 it is the only stable descending arrangement of its input, it commutes with filtering and with
 key-preserving projections, and a bounded prefix of it can be maintained one element at a time.
 */
module StableSort {

  function Take<T>(s: seq<T>, n: nat): seq<T> {
    if |s| <= n then s else s[..n]
  }

  ghost predicate Descending<T>(s: seq<T>, key: T -> nat) {
    forall i, j :: 0 <= i < j < |s| ==> key(s[i]) >= key(s[j])
  }

  /** Places `x` behind every element whose key is at least its own. */
  function Insert<T>(s: seq<T>, x: T, key: T -> nat): (r: seq<T>)
    ensures |r| == |s| + 1
  {
    if s == [] then [x]
    else if key(s[0]) >= key(x) then [s[0]] + Insert(s[1..], x, key)
    else [x] + s
  }

  /** The stable sort: elements are inserted in arrival order. */
  function SortDescending<T>(s: seq<T>, key: T -> nat): (r: seq<T>)
    ensures |r| == |s|
  {
    if s == [] then [] else Insert(SortDescending(s[..|s| - 1], key), s[|s| - 1], key)
  }

  function Filter<T>(s: seq<T>, p: T -> bool): (r: seq<T>)
    ensures |r| <= |s|
  {
    if s == [] then []
    else if p(s[0]) then [s[0]] + Filter(s[1..], p)
    else Filter(s[1..], p)
  }

  function Map<T, U>(s: seq<T>, f: T -> U): (r: seq<U>)
    ensures |r| == |s|
    ensures forall i :: 0 <= i < |s| ==> r[i] == f(s[i])
  {
    if s == [] then [] else [f(s[0])] + Map(s[1..], f)
  }

  /** The total of a measure over a sequence. */
  function Weigh<T>(s: seq<T>, m: T -> nat): nat {
    if s == [] then 0 else Weigh(s[..|s| - 1], m) + m(s[|s| - 1])
  }

  function HasKey<T>(key: T -> nat, k: nat): T -> bool {
    x => key(x) == k
  }

  /** `r` is a stable descending arrangement of `s`: ordered, and equal keys keep their order. */
  ghost predicate StablyDescending<T(!new)>(r: seq<T>, s: seq<T>, key: T -> nat) {
    && Descending(r, key)
    && forall k: nat :: Filter(r, HasKey(key, k)) == Filter(s, HasKey(key, k))
  }

  // ----- Insert -----

  lemma {:induction false} InsertDescending<T(!new)>(s: seq<T>, x: T, key: T -> nat)
    requires Descending(s, key)
    ensures Descending(Insert(s, x, key), key)
    ensures forall y :: y in Insert(s, x, key) <==> y == x || y in s
  {
    if s == [] {
    } else if key(s[0]) >= key(x) {
      InsertDescending(s[1..], x, key);
      assert s == [s[0]] + s[1..];
      var r := Insert(s[1..], x, key);
      forall j | 0 <= j < |r| ensures key(s[0]) >= key(r[j]) {
        assert r[j] in r;
      }
    } else {
      assert Insert(s, x, key) == [x] + s;
    }
  }

  lemma {:induction false} InsertAtEnd<T(!new)>(s: seq<T>, x: T, key: T -> nat)
    requires forall y :: y in s ==> key(y) >= key(x)
    ensures Insert(s, x, key) == s + [x]
  {
    if s != [] {
      InsertAtEnd(s[1..], x, key);
      assert s == [s[0]] + s[1..];
    }
  }

  lemma {:induction false} TakeInsert<T(!new)>(s: seq<T>, x: T, key: T -> nat, n: nat)
    ensures Take(Insert(Take(s, n), x, key), n) == Take(Insert(s, x, key), n)
  {
    if |s| > n && n > 0 {
      if key(s[0]) >= key(x) {
        TakeInsert(s[1..], x, key, n - 1);
        assert Take(s, n) == [s[0]] + Take(s[1..], n - 1);
        assert Take(s, n)[1..] == Take(s[1..], n - 1);
        assert Take([s[0]] + Insert(Take(s[1..], n - 1), x, key), n)
            == [s[0]] + Take(Insert(Take(s[1..], n - 1), x, key), n - 1);
        assert Take([s[0]] + Insert(s[1..], x, key), n) == [s[0]] + Take(Insert(s[1..], x, key), n - 1);
      } else {
        assert Take(s, n)[0] == s[0];
        assert Take([x] + Take(s, n), n) == Take([x] + s, n);
      }
    }
  }

  lemma {:induction false} WeighAppend<T(!new)>(s: seq<T>, t: seq<T>, m: T -> nat)
    ensures Weigh(s + t, m) == Weigh(s, m) + Weigh(t, m)
  {
    if t == [] {
      assert s + t == s;
    } else {
      WeighAppend(s, t[..|t| - 1], m);
      assert (s + t)[..|s + t| - 1] == s + t[..|t| - 1];
    }
  }

  lemma {:induction false} WeighInsert<T(!new)>(s: seq<T>, x: T, key: T -> nat, m: T -> nat)
    ensures Weigh(Insert(s, x, key), m) == Weigh(s, m) + m(x)
  {
    if s == [] {
    } else if key(s[0]) >= key(x) {
      WeighInsert(s[1..], x, key, m);
      WeighAppend([s[0]], Insert(s[1..], x, key), m);
      WeighAppend([s[0]], s[1..], m);
      assert s == [s[0]] + s[1..];
    } else {
      WeighAppend([x], s, m);
    }
  }

  // ----- Filter -----

  lemma {:induction false} FilterAppend<T(!new)>(s: seq<T>, t: seq<T>, p: T -> bool)
    ensures Filter(s + t, p) == Filter(s, p) + Filter(t, p)
  {
    if s == [] {
      assert s + t == t;
    } else {
      var rest := s[1..];
      FilterAppend(rest, t, p);
      assert (s + t)[0] == s[0] && (s + t)[1..] == rest + t;
      FilterStep(s, p);
      FilterStep(s + t, p);
      hide *;
      if p(s[0]) {
        Grouped([s[0]], Filter(rest, p), Filter(t, p));
      }
    }
  }

  lemma FilterStep<T>(s: seq<T>, p: T -> bool)
    requires s != []
    ensures Filter(s, p) == if p(s[0]) then [s[0]] + Filter(s[1..], p) else Filter(s[1..], p)
  {
  }

  lemma Grouped<T>(a: seq<T>, b: seq<T>, c: seq<T>)
    ensures a + b + c == a + (b + c)
  {
  }

  lemma {:induction false} FilterMembers<T(!new)>(s: seq<T>, p: T -> bool)
    ensures forall y :: y in Filter(s, p) <==> y in s && p(y)
  {
    if s != [] {
      FilterMembers(s[1..], p);
      assert s == [s[0]] + s[1..];
    }
  }

  lemma {:induction false} FilterDescending<T(!new)>(s: seq<T>, key: T -> nat, p: T -> bool)
    requires Descending(s, key)
    ensures Descending(Filter(s, p), key)
  {
    if s != [] {
      FilterDescending(s[1..], key, p);
      FilterMembers(s[1..], p);
      assert forall y :: y in Filter(s[1..], p) ==> y in s[1..] && key(s[0]) >= key(y);
      var f := Filter(s[1..], p);
      assert forall i :: 0 <= i < |f| ==> f[i] in f;
    }
  }

  lemma {:induction false} FilterInsert<T(!new)>(s: seq<T>, x: T, key: T -> nat, p: T -> bool)
    requires Descending(s, key)
    ensures Filter(Insert(s, x, key), p) == if p(x) then Insert(Filter(s, p), x, key) else Filter(s, p)
  {
    if s == [] {
    } else if key(s[0]) >= key(x) {
      FilterInsert(s[1..], x, key, p);
    } else {
      assert ([x] + s)[1..] == s;
      FilterMembers(s, p);
      var f := Filter(s, p);
      if f != [] {
        assert f[0] in f;
        assert f[0] in s;
        assert key(f[0]) < key(x);
      }
    }
  }

  lemma {:induction false} FilterOfTake<T(!new)>(s: seq<T>, n: nat, p: T -> bool)
    ensures Filter(Take(s, n), p) <= Take(Filter(s, p), n)
  {
    if |s| > n {
      FilterAppend(s[..n], s[n..], p);
      assert s == s[..n] + s[n..];
    }
  }

  // ----- SortDescending -----

  lemma {:induction false} SortIsDescending<T(!new)>(s: seq<T>, key: T -> nat)
    ensures Descending(SortDescending(s, key), key)
    ensures forall y :: y in SortDescending(s, key) <==> y in s
  {
    if s != [] {
      var h := s[..|s| - 1];
      SortIsDescending(h, key);
      InsertDescending(SortDescending(h, key), s[|s| - 1], key);
      assert s == h + [s[|s| - 1]];
    }
  }

  lemma {:induction false} SortWeighs<T(!new)>(s: seq<T>, key: T -> nat, m: T -> nat)
    ensures Weigh(SortDescending(s, key), m) == Weigh(s, m)
  {
    if s != [] {
      SortWeighs(s[..|s| - 1], key, m);
      WeighInsert(SortDescending(s[..|s| - 1], key), s[|s| - 1], key, m);
    }
  }

  lemma {:induction false} SortOfSorted<T(!new)>(s: seq<T>, key: T -> nat)
    requires Descending(s, key)
    ensures SortDescending(s, key) == s
  {
    if s != [] {
      var h := s[..|s| - 1];
      SortOfSorted(h, key);
      InsertAtEnd(h, s[|s| - 1], key);
      assert s == h + [s[|s| - 1]];
    }
  }

  /** Sorting and selecting commute, whatever the selection is. */
  lemma {:induction false} FilterOfSort<T(!new)>(s: seq<T>, key: T -> nat, p: T -> bool)
    ensures Filter(SortDescending(s, key), p) == SortDescending(Filter(s, p), key)
  {
    if s != [] {
      var h, x := s[..|s| - 1], s[|s| - 1];
      FilterOfSort(h, key, p);
      FilterOfSortStep(h, x, key, p);
      assert s == h + [x];
      hide *;
    }
  }

  lemma SortSnoc<T(!new)>(s: seq<T>, x: T, key: T -> nat)
    ensures SortDescending(s + [x], key) == Insert(SortDescending(s, key), x, key)
  {
    assert (s + [x])[..|s|] == s;
  }

  lemma FilterSnoc<T(!new)>(s: seq<T>, x: T, p: T -> bool)
    ensures Filter(s + [x], p) == if p(x) then Filter(s, p) + [x] else Filter(s, p)
  {
    FilterAppend(s, [x], p);
    assert [x][1..] == [];
    assert Filter([x], p) == if p(x) then [x] else [];
    assert Filter(s, p) + [] == Filter(s, p);
  }

  lemma FilterOfSortStep<T(!new)>(h: seq<T>, x: T, key: T -> nat, p: T -> bool)
    requires Filter(SortDescending(h, key), p) == SortDescending(Filter(h, p), key)
    ensures Filter(SortDescending(h + [x], key), p) == SortDescending(Filter(h + [x], p), key)
  {
    hide *;
    SortSnoc(h, x, key);
    SortIsDescending(h, key);
    FilterInsert(SortDescending(h, key), x, key, p);
    FilterSnoc(h, x, p);
    SortSnoc(Filter(h, p), x, key);
  }

  lemma {:induction false} SortMapped<T(!new), U(!new)>(s: seq<T>, f: T -> U, keyT: T -> nat, keyU: U -> nat)
    requires forall x :: x in s ==> keyU(f(x)) == keyT(x)
    ensures SortDescending(Map(s, f), keyU) == Map(SortDescending(s, keyT), f)
  {
    if s != [] {
      var h, x := s[..|s| - 1], s[|s| - 1];
      SortMapped(h, f, keyT, keyU);
      assert s == h + [x] && x in s;
      SortIsDescending(h, keyT);
      hide *;
      InsertMapped(SortDescending(h, keyT), x, f, keyT, keyU);
      MapSnoc(h, x, f);
      SortSnoc(Map(h, f), f(x), keyU);
      SortSnoc(h, x, keyT);
    }
  }

  lemma MapSnoc<T(!new), U(!new)>(s: seq<T>, x: T, f: T -> U)
    ensures Map(s + [x], f) == Map(s, f) + [f(x)]
  {
  }

  lemma {:induction false} InsertMapped<T(!new), U(!new)>(s: seq<T>, x: T, f: T -> U, keyT: T -> nat, keyU: U -> nat)
    requires keyU(f(x)) == keyT(x)
    requires forall y :: y in s ==> keyU(f(y)) == keyT(y)
    ensures Insert(Map(s, f), f(x), keyU) == Map(Insert(s, x, keyT), f)
  {
    if s == [] {
    } else if keyT(s[0]) >= keyT(x) {
      InsertMapped(s[1..], x, f, keyT, keyU);
    } else {
      assert ([x] + s)[1..] == s;
    }
  }

  /** The sort is a stable descending arrangement of its input. */
  lemma SortIsStable<T(!new)>(s: seq<T>, key: T -> nat)
    ensures StablyDescending(SortDescending(s, key), s, key)
  {
    SortIsDescending(s, key);
    forall k: nat
      ensures Filter(SortDescending(s, key), HasKey(key, k)) == Filter(s, HasKey(key, k))
    {
      SortKeepsTies(s, key, k);
    }
  }

  lemma SortKeepsTies<T(!new)>(s: seq<T>, key: T -> nat, k: nat)
    ensures Filter(SortDescending(s, key), HasKey(key, k)) == Filter(s, HasKey(key, k))
  {
    var f := Filter(s, HasKey(key, k));
    FilterOfSort(s, key, HasKey(key, k));
    FilterMembers(s, HasKey(key, k));
    assert forall i :: 0 <= i < |f| ==> f[i] in f && key(f[i]) == k;
    SortOfSorted(f, key);
  }

  /** There is only one stable descending arrangement, so it is the one any stable sort produces. */
  lemma {:induction false} StableOrderIsUnique<T(!new)>(a: seq<T>, b: seq<T>, key: T -> nat)
    requires Descending(a, key) && Descending(b, key)
    requires forall k: nat :: Filter(a, HasKey(key, k)) == Filter(b, HasKey(key, k))
    ensures a == b
  {
    if a == [] || b == [] {
      NoMembersWithoutMembers(a, b, key);
      NoMembersWithoutMembers(b, a, key);
    } else {
      HeadKeyIsShared(a, b, key);
      HeadKeyIsShared(b, a, key);
      var k := key(a[0]);
      assert Filter(a, HasKey(key, k))[0] == a[0];
      assert Filter(b, HasKey(key, k))[0] == b[0];
      forall k: nat ensures Filter(a[1..], HasKey(key, k)) == Filter(b[1..], HasKey(key, k)) {
        var fa, fb := Filter(a, HasKey(key, k)), Filter(b, HasKey(key, k));
        assert k == key(a[0]) ==> Filter(a[1..], HasKey(key, k)) == fa[1..];
        assert k == key(b[0]) ==> Filter(b[1..], HasKey(key, k)) == fb[1..];
      }
      StableOrderIsUnique(a[1..], b[1..], key);
      assert a == [a[0]] + a[1..] && b == [b[0]] + b[1..];
    }
  }

  lemma NoMembersWithoutMembers<T(!new)>(a: seq<T>, b: seq<T>, key: T -> nat)
    requires forall k: nat :: Filter(a, HasKey(key, k)) == Filter(b, HasKey(key, k))
    ensures a == [] ==> b == []
  {
    if b != [] {
      var k := key(b[0]);
      assert Filter(a, HasKey(key, k)) == Filter(b, HasKey(key, k)) != [];
    }
  }

  lemma HeadKeyIsShared<T(!new)>(a: seq<T>, b: seq<T>, key: T -> nat)
    requires a != [] && b != [] && Descending(b, key)
    requires forall k: nat :: Filter(a, HasKey(key, k)) == Filter(b, HasKey(key, k))
    ensures key(a[0]) <= key(b[0])
  {
    var k := key(a[0]);
    FilterMembers(b, HasKey(key, k));
    assert Filter(a, HasKey(key, k))[0] == a[0];
    assert a[0] in Filter(b, HasKey(key, k));
    assert a[0] in b;
  }
}
