/** Canonical JSON for cache keys: object members sorted at every level, array order kept. */
module JsonKeys {
  import opened Ordering

  /** A JSON value. Objects list their members in insertion order; a number is its printed text. */
  datatype Json =
    | Null
    | Bool(b: bool)
    | Num(text: string)
    | Str(s: string)
    | Arr(items: seq<Json>)
    | Obj(members: seq<Member>)

  datatype Member = Member(key: string, value: Json)

  function KeysOf(ms: seq<Member>): (keys: seq<string>)
    ensures |keys| == |ms|
    ensures forall i :: 0 <= i < |ms| ==> keys[i] == ms[i].key
  {
    if ms == [] then [] else [ms[0].key] + KeysOf(ms[1..])
  }

  /** No object has two members of the same name. */
  ghost predicate WellFormed(v: Json) {
    match v
    case Arr(items) => forall i :: 0 <= i < |items| ==> WellFormed(items[i])
    case Obj(ms) => Distinct(KeysOf(ms)) && forall i :: 0 <= i < |ms| ==> WellFormed(ms[i].value)
    case _ => true
  }

  /** Where a name stands among the members. */
  function IndexOf(ms: seq<Member>, key: string): (i: nat)
    requires Names(ms, key)
    ensures i < |ms| && ms[i].key == key
    ensures forall j :: 0 <= j < i ==> ms[j].key != key
  {
    if ms[0].key == key then 0
    else
      assert Names(ms[1..], key) by {
        var j :| 0 <= j < |ms| && ms[j].key == key;
        assert ms[1..][j - 1].key == key;
      }
      1 + IndexOf(ms[1..], key)
  }

  /** The sorted value: names ascending, every value sorted in turn. */
  function SortJsonKeys(v: Json): Json
    decreases v, 1, 0
  {
    match v
    case Obj(ms) =>
      SortMembers(KeysOf(ms));
      Obj(SortedMembers(v, Sort(KeysOf(ms))))
    case Arr(items) => Arr(SortedItems(v, items))
    case _ => v
  }

  function SortedItems(v: Json, items: seq<Json>): (r: seq<Json>)
    requires forall i :: 0 <= i < |items| ==> items[i] < v
    ensures |r| == |items|
    ensures forall i :: 0 <= i < |items| ==> r[i] == SortJsonKeys(items[i])
    decreases v, 0, |items|
  {
    if items == [] then [] else [SortJsonKeys(items[0])] + SortedItems(v, items[1..])
  }

  function SortedMembers(v: Json, names: seq<string>): (r: seq<Member>)
    requires v.Obj? && forall name :: name in names ==> name in KeysOf(v.members)
    ensures |r| == |names|
    ensures forall i :: 0 <= i < |names| ==>
      && Names(v.members, names[i])
      && r[i] == Member(names[i], SortJsonKeys(v.members[IndexOf(v.members, names[i])].value))
    decreases v, 0, |names|
  {
    if names == [] then []
    else
      NamesKey(v.members, names[0]);
      var m := v.members[IndexOf(v.members, names[0])];
      [Member(names[0], SortJsonKeys(m.value))] + SortedMembers(v, names[1..])
  }

  /** The members hold this name. */
  predicate Names(ms: seq<Member>, key: string) {
    exists j :: 0 <= j < |ms| && ms[j].key == key
  }

  lemma NamesKey(ms: seq<Member>, key: string)
    ensures Names(ms, key) <==> key in KeysOf(ms)
  {
    assert forall i :: 0 <= i < |ms| ==> KeysOf(ms)[i] == ms[i].key;
    if key in KeysOf(ms) {
      var i :| 0 <= i < |ms| && KeysOf(ms)[i] == key;
      assert ms[i].key == key;
    }
  }

  /** The value of a member. */
  function ValueOf(ms: seq<Member>, key: string): Json
    requires Names(ms, key)
  {
    ms[IndexOf(ms, key)].value
  }

  /** Equal up to the order of object members, at every level; arrays keep their order. */
  ghost predicate Equivalent(a: Json, b: Json)
    decreases a
  {
    match (a, b)
    case (Arr(xs), Arr(ys)) =>
      |xs| == |ys| && forall i :: 0 <= i < |xs| ==> Equivalent(xs[i], ys[i])
    case (Obj(ms), Obj(ns)) =>
      && (forall key :: Names(ms, key) <==> Names(ns, key))
      && (forall i :: 0 <= i < |ms| && Names(ns, ms[i].key) ==> Equivalent(ms[i].value, ValueOf(ns, ms[i].key)))
    case _ => a == b
  }

  lemma DistinctIndex(ms: seq<Member>, i: nat)
    requires Distinct(KeysOf(ms)) && i < |ms|
    ensures Names(ms, ms[i].key) && IndexOf(ms, ms[i].key) == i
  {
    hide *;
    Named(ms, i);
    var j := IndexOf(ms, ms[i].key);
    KeyAt(ms, i);
    KeyAt(ms, j);
    SameKey(KeysOf(ms), i, j);
  }

  lemma Named(ms: seq<Member>, i: nat)
    requires i < |ms|
    ensures Names(ms, ms[i].key)
  {
  }

  lemma KeyAt(ms: seq<Member>, i: nat)
    requires i < |ms|
    ensures KeysOf(ms)[i] == ms[i].key
  {
    hide *;
  }

  lemma SameKey(keys: seq<string>, i: nat, j: nat)
    requires Distinct(keys) && i < |keys| && j < |keys| && keys[i] == keys[j]
    ensures i == j
  {
  }

  lemma SameNamesSortAlike(ms: seq<Member>, ns: seq<Member>)
    requires Distinct(KeysOf(ms)) && Distinct(KeysOf(ns))
    ensures (forall key :: Names(ms, key) <==> Names(ns, key)) <==> Sort(KeysOf(ms)) == Sort(KeysOf(ns))
  {
    SortMembers(KeysOf(ms));
    SortMembers(KeysOf(ns));
    forall key ensures Names(ms, key) <==> key in Sort(KeysOf(ms)) {
      NamesKey(ms, key);
    }
    forall key ensures Names(ns, key) <==> key in Sort(KeysOf(ns)) {
      NamesKey(ns, key);
    }
    if forall key :: Names(ms, key) <==> Names(ns, key) {
      SortUnique(KeysOf(ms), KeysOf(ns));
    }
  }

  /** The members a sorted object lists, in terms of the members it was made from. */
  lemma SortedAt(v: Json, i: nat)
    requires v.Obj? && Distinct(KeysOf(v.members)) && i < |v.members|
    ensures SortJsonKeys(v).Obj?
    ensures Member(v.members[i].key, SortJsonKeys(v.members[i].value)) in SortJsonKeys(v).members
  {
    var names := Sort(KeysOf(v.members));
    SortMembers(KeysOf(v.members));
    DistinctIndex(v.members, i);
    NamesKey(v.members, v.members[i].key);
    assert SortJsonKeys(v) == Obj(SortedMembers(v, names));
    hide *;
    var p :| 0 <= p < |names| && names[p] == v.members[i].key;
    assert SortedMembers(v, names)[p] == Member(v.members[i].key, SortJsonKeys(v.members[i].value));
  }

  /** The induction hypothesis of an object: it is decided of its members' values. */
  ghost predicate MembersDecided(a: Json)
    requires a.Obj?
  {
    forall i, w :: 0 <= i < |a.members| && WellFormed(w) ==>
      (SortJsonKeys(a.members[i].value) == SortJsonKeys(w) <==> Equivalent(a.members[i].value, w))
  }

  /** A member of equivalent objects, in both. */
  lemma MemberOfEquivalent(a: Json, b: Json, name: string)
    requires a.Obj? && b.Obj? && WellFormed(b) && MembersDecided(a) && Equivalent(a, b)
    requires Names(a.members, name)
    ensures Names(b.members, name)
    ensures SortJsonKeys(ValueOf(a.members, name)) == SortJsonKeys(ValueOf(b.members, name))
  {
    var i := IndexOf(a.members, name);
    assert Names(b.members, name);
    assert Equivalent(a.members[i].value, ValueOf(b.members, a.members[i].key));
    assert WellFormed(b.members[IndexOf(b.members, name)].value);
    hide Equivalent;
    hide WellFormed;
    hide SortJsonKeys;
  }

  lemma EquivalentObjectsSortAlike(a: Json, b: Json)
    requires a.Obj? && b.Obj? && WellFormed(a) && WellFormed(b) && MembersDecided(a)
    requires Equivalent(a, b)
    ensures SortJsonKeys(a) == SortJsonKeys(b)
  {
    SortMembers(KeysOf(a.members));
    SortMembers(KeysOf(b.members));
    SameNamesSortAlike(a.members, b.members);
    assert SortJsonKeys(a) == Obj(SortedMembers(a, Sort(KeysOf(a.members))));
    assert SortJsonKeys(b) == Obj(SortedMembers(b, Sort(KeysOf(b.members))));
    var names := Sort(KeysOf(a.members));
    assert names == Sort(KeysOf(b.members));
    hide *;
    var sa, sb := SortedMembers(a, names), SortedMembers(b, names);
    forall p | 0 <= p < |names| ensures sa[p] == sb[p] {
      MemberOfEquivalent(a, b, names[p]);
    }
    assert sa == sb;
  }

  lemma SortedNames(v: Json)
    requires v.Obj?
    ensures SortJsonKeys(v).Obj? && KeysOf(SortJsonKeys(v).members) == Sort(KeysOf(v.members))
  {
    SortMembers(KeysOf(v.members));
    var names := Sort(KeysOf(v.members));
    hide KeysOf;
    assert SortJsonKeys(v).members == SortedMembers(v, names);
    assert KeysOf(SortedMembers(v, names)) == names;
  }

  /** In the canonical form the members' names ascend by their characters. */
  lemma NamesAscend(v: Json, i: nat, j: nat)
    requires v.Obj? && WellFormed(v) && i < j < |SortJsonKeys(v).members|
    ensures exists n :: LeastAt(SortJsonKeys(v).members[i].key, SortJsonKeys(v).members[j].key, n)
  {
    SortedNames(v);
    SortAscending(KeysOf(v.members));
    var ms := SortJsonKeys(v).members;
    KeyAt(ms, i);
    KeyAt(ms, j);
    LessIff(ms[i].key, ms[j].key);
    assert Ascending(KeysOf(ms));
    hide SortJsonKeys;
    hide KeysOf;
    hide WellFormed;
  }

  lemma ObjectsSortedAlikeAreEquivalent(a: Json, b: Json)
    requires a.Obj? && b.Obj? && WellFormed(a) && WellFormed(b) && MembersDecided(a)
    requires SortJsonKeys(a) == SortJsonKeys(b)
    ensures Equivalent(a, b)
  {
    var ms, ns := a.members, b.members;
    SortedNames(a);
    SortedNames(b);
    SameNamesSortAlike(ms, ns);
    hide *;
    forall i | 0 <= i < |ms| && Names(ns, ms[i].key)
      ensures Equivalent(ms[i].value, ValueOf(ns, ms[i].key))
    {
      MemberOfEqualSorted(a, b, i);
    }
    ObjectsEquivalent(ms, ns);
  }

  lemma MemberOfEqualSorted(a: Json, b: Json, i: nat)
    requires a.Obj? && b.Obj? && WellFormed(a) && WellFormed(b) && MembersDecided(a)
    requires SortJsonKeys(a) == SortJsonKeys(b)
    requires i < |a.members| && Names(b.members, a.members[i].key)
    ensures Equivalent(a.members[i].value, ValueOf(b.members, a.members[i].key))
  {
    hide SortJsonKeys;
    hide Equivalent;
    hide KeysOf;
    var j := IndexOf(b.members, a.members[i].key);
    SortedAt(a, i);
    SortedAt(b, j);
    var sorted := SortJsonKeys(a).members;
    var p :| 0 <= p < |sorted| && sorted[p] == Member(a.members[i].key, SortJsonKeys(a.members[i].value));
    var q :| 0 <= q < |sorted| && sorted[q] == Member(b.members[j].key, SortJsonKeys(b.members[j].value));
    SortedNamesDistinct(a, p, q);
    assert WellFormed(b.members[j].value);
    assert SortJsonKeys(a.members[i].value) == SortJsonKeys(b.members[j].value);
    assert Equivalent(a.members[i].value, b.members[j].value);
    hide *;
    ValueAt(b.members, a.members[i].key);
  }

  lemma ValueAt(ms: seq<Member>, key: string)
    requires Names(ms, key)
    ensures ValueOf(ms, key) == ms[IndexOf(ms, key)].value
  {
  }

  lemma SortedNamesDistinct(v: Json, p: nat, q: nat)
    requires v.Obj? && WellFormed(v)
    requires p < |SortJsonKeys(v).members| && q < |SortJsonKeys(v).members|
    requires SortJsonKeys(v).members[p].key == SortJsonKeys(v).members[q].key
    ensures p == q
  {
    var names := Sort(KeysOf(v.members));
    SortMembers(KeysOf(v.members));
    assert SortJsonKeys(v).members == SortedMembers(v, names);
    SortedDistinct(KeysOf(v.members));
    assert names[p] == names[q];
  }

  /** Two values have the same canonical form exactly when they differ in the order of object members only. */
  lemma {:induction false} SortedAlikeIff(a: Json, b: Json)
    requires WellFormed(a) && WellFormed(b)
    ensures SortJsonKeys(a) == SortJsonKeys(b) <==> Equivalent(a, b)
    decreases a
  {
    match (a, b)
    case (Arr(xs), Arr(ys)) =>
      forall i | 0 <= i < |xs| && i < |ys|
        ensures SortJsonKeys(xs[i]) == SortJsonKeys(ys[i]) <==> Equivalent(xs[i], ys[i])
      {
        SortedAlikeIff(xs[i], ys[i]);
      }
      var sx, sy := SortedItems(a, xs), SortedItems(b, ys);
      assert sx == sy <==> |xs| == |ys| && forall i :: 0 <= i < |xs| ==> sx[i] == sy[i];
    case (Obj(ms), Obj(ns)) =>
      forall i, w | 0 <= i < |ms| && WellFormed(w)
        ensures SortJsonKeys(a.members[i].value) == SortJsonKeys(w) <==> Equivalent(a.members[i].value, w)
      {
        SortedAlikeIff(ms[i].value, w);
      }
      assert MembersDecided(a);
      if Equivalent(a, b) {
        EquivalentObjectsSortAlike(a, b);
      }
      if SortJsonKeys(a) == SortJsonKeys(b) {
        ObjectsSortedAlikeAreEquivalent(a, b);
      }
    case _ =>
  }

  /** The canonical form is well-formed and equivalent to the value it came from. */
  lemma {:induction false} SortedIsEquivalent(v: Json)
    requires WellFormed(v)
    ensures WellFormed(SortJsonKeys(v)) && Equivalent(SortJsonKeys(v), v)
    decreases v
  {
    match v
    case Arr(items) =>
      forall i | 0 <= i < |items|
        ensures WellFormed(SortJsonKeys(items[i])) && Equivalent(SortJsonKeys(items[i]), items[i])
      {
        SortedIsEquivalent(items[i]);
      }
    case Obj(ms) =>
      forall i | 0 <= i < |ms|
        ensures WellFormed(SortJsonKeys(ms[i].value)) && Equivalent(SortJsonKeys(ms[i].value), ms[i].value)
      {
        SortedIsEquivalent(ms[i].value);
      }
      SortedObject(v);
    case _ =>
  }

  lemma SortedObject(v: Json)
    requires v.Obj? && WellFormed(v)
    requires forall i :: 0 <= i < |v.members| ==>
      WellFormed(SortJsonKeys(v.members[i].value)) && Equivalent(SortJsonKeys(v.members[i].value), v.members[i].value)
    ensures WellFormed(SortJsonKeys(v)) && Equivalent(SortJsonKeys(v), v)
  {
    var ms, names := v.members, Sort(KeysOf(v.members));
    SortMembers(KeysOf(ms));
    var sorted := SortedMembers(v, names);
    assert KeysOf(sorted) == names;
    assert Distinct(KeysOf(sorted)) by {
      SortedDistinct(KeysOf(ms));
    }
    SortedObjectEquivalent(v);
    forall i | 0 <= i < |sorted| ensures WellFormed(sorted[i].value) {
      assert sorted[i].value == SortJsonKeys(ms[IndexOf(ms, names[i])].value);
    }
    hide KeysOf;
    hide Equivalent;
  }

  lemma SortedObjectEquivalent(v: Json)
    requires v.Obj? && WellFormed(v)
    requires forall i :: 0 <= i < |v.members| ==> Equivalent(SortJsonKeys(v.members[i].value), v.members[i].value)
    ensures Equivalent(SortJsonKeys(v), v)
  {
    var ms, names := v.members, Sort(KeysOf(v.members));
    SortMembers(KeysOf(ms));
    var sorted := SortedMembers(v, names);
    assert SortJsonKeys(v) == Obj(sorted);
    SortedHasTheSameNames(v);
    hide Equivalent;
    hide KeysOf;
    forall i | 0 <= i < |sorted| && Names(ms, sorted[i].key)
      ensures Equivalent(sorted[i].value, ValueOf(ms, sorted[i].key))
    {
      assert sorted[i] == Member(names[i], SortJsonKeys(ms[IndexOf(ms, names[i])].value));
    }
    hide SortJsonKeys;
    ObjectsEquivalent(sorted, ms);
  }

  lemma ObjectsEquivalent(ms: seq<Member>, ns: seq<Member>)
    requires forall key :: Names(ms, key) <==> Names(ns, key)
    requires forall i :: 0 <= i < |ms| && Names(ns, ms[i].key) ==> Equivalent(ms[i].value, ValueOf(ns, ms[i].key))
    ensures Equivalent(Obj(ms), Obj(ns))
  {
  }

  lemma SortedHasTheSameNames(v: Json)
    requires v.Obj?
    ensures SortJsonKeys(v).Obj?
    ensures forall key :: Names(SortJsonKeys(v).members, key) <==> Names(v.members, key)
  {
    SortedNames(v);
    SortMembers(KeysOf(v.members));
    hide SortJsonKeys;
    hide KeysOf;
    forall key ensures Names(SortJsonKeys(v).members, key) <==> Names(v.members, key) {
      NamesKey(SortJsonKeys(v).members, key);
      NamesKey(v.members, key);
    }
  }

  lemma SortedDistinct(keys: seq<string>)
    requires Distinct(keys)
    ensures Distinct(Sort(keys))
  {
    SortAscending(keys);
    var names := Sort(keys);
    forall i, j | 0 <= i < j < |names| ensures names[i] != names[j] {
      LessAsymmetric(names[i], names[j]);
    }
  }

  /** Sorting twice is sorting once. */
  lemma SortIsIdempotent(v: Json)
    requires WellFormed(v)
    ensures SortJsonKeys(SortJsonKeys(v)) == SortJsonKeys(v)
  {
    SortedIsEquivalent(v);
    SortedAlikeIff(SortJsonKeys(v), v);
  }
}
