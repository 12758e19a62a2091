/** Trees of any width, their depth-tagged pre-order listing, and the reader that rebuilds them from the depths. */
module Roses {

  datatype Rose<A> = Rose(tag: A, children: seq<Rose<A>>)

  function Flatten<A>(t: Rose<A>, depth: nat): (r: seq<(nat, A)>)
    ensures r != [] && r[0] == (depth, t.tag)
    decreases t, 1
  {
    [(depth, t.tag)] + FlattenAll(t.children, depth + 1)
  }

  function FlattenAll<A>(ts: seq<Rose<A>>, depth: nat): seq<(nat, A)>
    decreases ts, 0
  {
    if ts == [] then [] else Flatten(ts[0], depth) + FlattenAll(ts[1..], depth)
  }

  /** Takes trees of the given depth off the front of a listing: the trees, and what is left. */
  function Rebuild<A>(rows: seq<(nat, A)>, depth: nat): (r: (seq<Rose<A>>, seq<(nat, A)>))
    ensures |r.1| <= |rows|
    decreases |rows|
  {
    if rows == [] || rows[0].0 != depth then ([], rows)
    else
      var (children, rest) := Rebuild(rows[1..], depth + 1);
      var (siblings, last) := Rebuild(rest, depth);
      ([Rose(rows[0].1, children)] + siblings, last)
  }

  /** The listing goes on with nothing that belongs at this depth or below it. */
  predicate Closes<A>(rest: seq<(nat, A)>, depth: nat) {
    rest == [] || rest[0].0 < depth
  }

  lemma {:induction false} RebuildFlatten<A(!new)>(ts: seq<Rose<A>>, depth: nat, rest: seq<(nat, A)>)
    requires Closes(rest, depth)
    ensures Rebuild(FlattenAll(ts, depth) + rest, depth) == (ts, rest)
    decreases ts
  {
    if ts == [] {
      assert FlattenAll(ts, depth) + rest == rest;
    } else {
      var t, after := ts[0], FlattenAll(ts[1..], depth) + rest;
      var below := FlattenAll(t.children, depth + 1) + after;
      SiblingsClose(ts[1..], depth, rest);
      RebuildFlatten(t.children, depth + 1, after);
      RebuildFlatten(ts[1..], depth, rest);
      RebuildCons(t.tag, depth, below);
      hide Rebuild;
      FlattenShape(ts, depth, rest);
      hide FlattenAll;
      assert [t] + ts[1..] == ts;
    }
  }

  lemma FlattenShape<A(!new)>(ts: seq<Rose<A>>, depth: nat, rest: seq<(nat, A)>)
    requires ts != []
    ensures FlattenAll(ts, depth) + rest
         == [(depth, ts[0].tag)] + (FlattenAll(ts[0].children, depth + 1) + (FlattenAll(ts[1..], depth) + rest))
  {
    var first, others := FlattenAll(ts[0].children, depth + 1), FlattenAll(ts[1..], depth);
    assert FlattenAll(ts, depth) == [(depth, ts[0].tag)] + first + others;
    hide FlattenAll;
    assert [(depth, ts[0].tag)] + first + others + rest == [(depth, ts[0].tag)] + (first + (others + rest));
  }

  lemma RebuildCons<A(!new)>(a: A, depth: nat, below: seq<(nat, A)>)
    ensures var (children, rest) := Rebuild(below, depth + 1);
      var (siblings, last) := Rebuild(rest, depth);
      Rebuild([(depth, a)] + below, depth) == ([Rose(a, children)] + siblings, last)
  {
    assert ([(depth, a)] + below)[1..] == below;
  }

  lemma SiblingsClose<A>(ts: seq<Rose<A>>, depth: nat, rest: seq<(nat, A)>)
    requires Closes(rest, depth)
    ensures Closes(FlattenAll(ts, depth) + rest, depth + 1)
  {
    if ts == [] {
      assert FlattenAll(ts, depth) + rest == rest;
    }
  }

  /** The depths alone determine the tree: shape, order and labels. */
  lemma TreeFromDepths<A(!new)>(t: Rose<A>)
    ensures Rebuild(Flatten(t, 0), 0) == ([t], [])
  {
    RebuildFlatten([t], 0, []);
    assert FlattenAll([t], 0) + [] == Flatten(t, 0) by {
      assert [t][1..] == [];
      assert FlattenAll<A>([], 0) == [];
    }
  }

  // ----- Relabelling -----

  function MapRose<A, B>(t: Rose<A>, f: A -> B): Rose<B>
    decreases t, 1
  {
    Rose(f(t.tag), MapAll(t.children, f))
  }

  function MapAll<A, B>(ts: seq<Rose<A>>, f: A -> B): seq<Rose<B>>
    decreases ts, 0
  {
    if ts == [] then [] else [MapRose(ts[0], f)] + MapAll(ts[1..], f)
  }

  function Labels<A>(t: Rose<A>): seq<A>
    decreases t, 1
  {
    [t.tag] + AllLabels(t.children)
  }

  function AllLabels<A>(ts: seq<Rose<A>>): seq<A>
    decreases ts, 0
  {
    if ts == [] then [] else Labels(ts[0]) + AllLabels(ts[1..])
  }

  /** Relabelling and labelling back is the identity exactly when it is on every label. */
  lemma {:induction false} RelabelBack<A(!new), B(!new)>(ts: seq<Rose<A>>, f: A -> B, g: B -> A)
    ensures MapAll(MapAll(ts, f), g) == ts <==> forall x :: x in AllLabels(ts) ==> g(f(x)) == x
    decreases ts
  {
    if ts != [] {
      var t, rest := ts[0], ts[1..];
      RelabelBack(t.children, f, g);
      RelabelBack(rest, f, g);
      var m := MapAll(ts, f);
      assert m[0] == MapRose(t, f) && m[1..] == MapAll(rest, f);
      assert MapAll(m, g) == [MapRose(MapRose(t, f), g)] + MapAll(MapAll(rest, f), g);
      assert ts == [t] + rest;
      assert AllLabels(ts) == [t.tag] + AllLabels(t.children) + AllLabels(rest);
    }
  }

  lemma {:induction false} LabelsOfMapped<A(!new), B(!new)>(ts: seq<Rose<A>>, f: A -> B)
    ensures |AllLabels(MapAll(ts, f))| == |AllLabels(ts)|
    ensures forall i :: 0 <= i < |AllLabels(ts)| ==> AllLabels(MapAll(ts, f))[i] == f(AllLabels(ts)[i])
    decreases ts
  {
    if ts != [] {
      var t, rest := ts[0], ts[1..];
      LabelsOfMapped(t.children, f);
      LabelsOfMapped(rest, f);
      var m := MapAll(ts, f);
      assert m[0] == MapRose(t, f) && m[1..] == MapAll(rest, f);
      assert AllLabels(ts) == [t.tag] + AllLabels(t.children) + AllLabels(rest);
      assert AllLabels(m) == [f(t.tag)] + AllLabels(MapAll(t.children, f)) + AllLabels(MapAll(rest, f));
    }
  }
}
