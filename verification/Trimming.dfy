/** Trimming characters from both ends of a text. */
module Trimming {
  type Test = char -> bool

  function TrimStart(s: string, drop: Test): (r: string)
    ensures |r| <= |s|
    ensures forall c :: c in r ==> c in s
  {
    if s == [] || !drop(s[0]) then s else TrimStart(s[1..], drop)
  }

  function TrimEnd(s: string, drop: Test): (r: string)
    ensures |r| <= |s|
    ensures forall c :: c in r ==> c in s
  {
    if s == [] || !drop(s[|s| - 1]) then s else TrimEnd(s[..|s| - 1], drop)
  }

  function Trim(s: string, drop: Test): (r: string)
    ensures |r| <= |s|
    ensures forall c :: c in r ==> c in s
  {
    TrimEnd(TrimStart(s, drop), drop)
  }

  /** Nothing to trim at either end. */
  predicate Unpadded(s: string, drop: Test) {
    s == [] || (!drop(s[0]) && !drop(s[|s| - 1]))
  }

  predicate All(s: string, drop: Test) {
    forall i :: 0 <= i < |s| ==> drop(s[i])
  }

  lemma {:induction false} TrimStartDrops(a: string, s: string, drop: Test)
    requires All(a, drop)
    ensures TrimStart(a + s, drop) == TrimStart(s, drop)
  {
    if a == [] {
      assert a + s == s;
    } else {
      assert (a + s)[1..] == a[1..] + s;
      TrimStartDrops(a[1..], s, drop);
    }
  }

  lemma {:induction false} TrimEndDrops(s: string, b: string, drop: Test)
    requires All(b, drop)
    ensures TrimEnd(s + b, drop) == TrimEnd(s, drop)
  {
    if b == [] {
      assert s + b == s;
    } else {
      assert (s + b)[..|s + b| - 1] == s + b[..|b| - 1];
      TrimEndDrops(s, b[..|b| - 1], drop);
    }
  }

  lemma {:induction false} TrimStartKeepsEnd(s: string, drop: Test)
    ensures var r := TrimStart(s, drop); r == [] || (!drop(r[0]) && r[|r| - 1] == s[|s| - 1])
    ensures |TrimStart(s, drop)| == |s| ==> TrimStart(s, drop) == s
  {
    if s != [] && drop(s[0]) {
      TrimStartKeepsEnd(s[1..], drop);
    }
  }

  lemma {:induction false} TrimEndKeepsStart(s: string, drop: Test)
    ensures var r := TrimEnd(s, drop); r == [] || (r[0] == s[0] && !drop(r[|r| - 1]))
    ensures |TrimEnd(s, drop)| == |s| ==> TrimEnd(s, drop) == s
  {
    if s != [] && drop(s[|s| - 1]) {
      TrimEndKeepsStart(s[..|s| - 1], drop);
    }
  }

  /** Trimmed text has nothing left to trim, and trimming that changes no length changes nothing. */
  lemma TrimUnpads(s: string, drop: Test)
    ensures Unpadded(Trim(s, drop), drop)
    ensures |Trim(s, drop)| == |s| ==> Unpadded(s, drop)
    ensures Unpadded(s, drop) ==> Trim(s, drop) == s
  {
    TrimStartKeepsEnd(s, drop);
    TrimEndKeepsStart(TrimStart(s, drop), drop);
  }

  /** Padding goes; what it enclosed is trimmed in turn. */
  lemma TrimPadding(a: string, s: string, b: string, drop: Test)
    requires All(a, drop) && All(b, drop)
    ensures Trim(a + s + b, drop) == Trim(s, drop)
  {
    assert a + s + b == a + (s + b);
    TrimStartDrops(a, s + b, drop);
    if All(s, drop) {
      TrimStartDrops(s, b, drop);
      TrimStartDrops(s, [], drop);
      TrimStartDrops(b, [], drop);
      assert s + [] == s && b + [] == b;
    } else {
      TrimStartBefore(s, b, drop);
      TrimEndDrops(TrimStart(s, drop), b, drop);
    }
  }

  lemma {:induction false} TrimStartBefore(s: string, b: string, drop: Test)
    requires !All(s, drop)
    ensures TrimStart(s + b, drop) == TrimStart(s, drop) + b
  {
    if drop(s[0]) {
      assert (s + b)[1..] == s[1..] + b;
      TrimStartBefore(s[1..], b, drop);
    }
  }

  /** A first character that is not trimmed stays. */
  lemma {:induction false} TrimKeepsHead(s: string, drop: Test)
    requires s != [] && !drop(s[0])
    ensures Trim(s, drop) != [] && Trim(s, drop)[0] == s[0]
  {
    if |s| > 1 && drop(s[|s| - 1]) {
      TrimKeepsHead(s[..|s| - 1], drop);
    }
  }

  lemma {:induction false} TrimEndAfter(a: string, s: string, drop: Test)
    requires !All(s, drop)
    ensures TrimEnd(a + s, drop) == a + TrimEnd(s, drop)
  {
    if drop(s[|s| - 1]) {
      assert (a + s)[..|a + s| - 1] == a + s[..|s| - 1];
      TrimEndAfter(a, s[..|s| - 1], drop);
    }
  }

  /** The ends may be trimmed in either order. */
  lemma {:induction false} TrimCommutes(s: string, drop: Test)
    ensures Trim(s, drop) == TrimStart(TrimEnd(s, drop), drop)
  {
    if s != [] && drop(s[0]) {
      TrimCommutes(s[1..], drop);
      if All(s[1..], drop) {
        TrimEndDrops([], s, drop);
        TrimEndDrops([], s[1..], drop);
        assert [] + s == s && [] + s[1..] == s[1..];
      } else {
        TrimEndAfter([s[0]], s[1..], drop);
        assert [s[0]] + s[1..] == s;
        assert ([s[0]] + TrimEnd(s[1..], drop))[1..] == TrimEnd(s[1..], drop);
      }
    } else if s != [] {
      TrimEndKeepsStart(s, drop);
    }
  }

  /** A character that is trimmed may be missing at the end. */
  lemma TrimWithoutLast(s: string, drop: Test)
    requires s != [] && drop(s[|s| - 1])
    ensures Trim(s[..|s| - 1], drop) == Trim(s, drop)
  {
    var init, last := s[..|s| - 1], [s[|s| - 1]];
    TrimPadding([], init, last, drop);
    assert [] + init + last == s;
  }

  lemma TrimStartApart(x: string, rest: string, drop: Test)
    requires rest != [] && (!All(x, drop) || !drop(rest[0]))
    ensures TrimStart(x + rest, drop) == TrimStart(x, drop) + rest
  {
    if All(x, drop) {
      TrimStartDrops(x, rest, drop);
      TrimStartDrops(x, [], drop);
      assert x + [] == x;
    } else {
      TrimStartBefore(x, rest, drop);
    }
  }

  lemma TrimEndApart(front: string, y: string, drop: Test)
    requires front != [] && (!All(y, drop) || !drop(front[|front| - 1]))
    ensures TrimEnd(front + y, drop) == front + TrimEnd(y, drop)
  {
    if All(y, drop) {
      TrimEndDrops(front, y, drop);
      TrimEndDrops([], y, drop);
      assert [] + y == y;
    } else {
      TrimEndAfter(front, y, drop);
    }
  }

  /** Trimming around a core that keeps both trimmings apart. */
  lemma TrimAround(x: string, core: string, y: string, drop: Test)
    requires core != [] && (!All(x, drop) || !drop(core[0])) && (!All(y, drop) || !drop(core[|core| - 1]))
    ensures Trim(x + core + y, drop) == TrimStart(x, drop) + core + TrimEnd(y, drop)
  {
    var front := TrimStart(x, drop) + core;
    assert x + core + y == x + (core + y);
    TrimStartApart(x, core + y, drop);
    assert TrimStart(x, drop) + (core + y) == front + y;
    assert front[|front| - 1] == core[|core| - 1];
    TrimEndApart(front, y, drop);
    hide All;
    hide TrimStart;
    hide TrimEnd;
  }

  /** What ends, or starts, with a character that stays is not trimmed to nothing. */
  lemma {:induction false} TrimStays(s: string, t: string, drop: Test)
    ensures s != [] && !drop(s[|s| - 1]) ==> TrimStart(s, drop) != []
    ensures t != [] && !drop(t[0]) ==> TrimEnd(t, drop) != []
    decreases |s| + |t|
  {
    if s != [] && drop(s[0]) {
      TrimStays(s[1..], t, drop);
    } else if t != [] && drop(t[|t| - 1]) {
      TrimStays(s, t[..|t| - 1], drop);
    }
  }

  lemma {:induction false} StartStays(s: string, drop: Test)
    ensures !All(s, drop) ==> TrimStart(s, drop) != []
  {
    if s != [] && drop(s[0]) {
      StartStays(s[1..], drop);
    }
  }

  lemma {:induction false} EndStays(s: string, drop: Test)
    ensures !All(s, drop) ==> TrimEnd(s, drop) != []
  {
    if s != [] && drop(s[|s| - 1]) {
      EndStays(s[..|s| - 1], drop);
    }
  }

  /** A last character but one that stays keeps the last one. */
  lemma {:induction false} KeepsLastTwo(s: string, drop: Test)
    requires |s| >= 2 && !drop(s[|s| - 2])
    ensures var r := TrimStart(s, drop); |r| >= 2 && r[|r| - 1] == s[|s| - 1] && r[|r| - 2] == s[|s| - 2]
  {
    if |s| > 2 && drop(s[0]) {
      KeepsLastTwo(s[1..], drop);
    }
  }

  lemma {:induction false} KeepsFirstTwo(s: string, drop: Test)
    requires |s| >= 2 && !drop(s[1])
    ensures var r := TrimEnd(s, drop); |r| >= 2 && r[0] == s[0] && r[1] == s[1]
  {
    if |s| > 2 && drop(s[|s| - 1]) {
      KeepsFirstTwo(s[..|s| - 1], drop);
    }
  }

  /** A character that is never trimmed occurs as often as before. */
  lemma {:induction false} TrimStartKeepsCount(s: string, drop: Test, c: char)
    requires !drop(c)
    ensures multiset(TrimStart(s, drop))[c] == multiset(s)[c]
  {
    if s != [] && drop(s[0]) {
      TrimStartKeepsCount(s[1..], drop, c);
      assert s == [s[0]] + s[1..];
    }
  }

  lemma {:induction false} TrimEndKeepsCount(s: string, drop: Test, c: char)
    requires !drop(c)
    ensures multiset(TrimEnd(s, drop))[c] == multiset(s)[c]
  {
    if s != [] && drop(s[|s| - 1]) {
      TrimEndKeepsCount(s[..|s| - 1], drop, c);
      assert s == s[..|s| - 1] + [s[|s| - 1]];
    }
  }

  lemma TrimKeepsCount(s: string, drop: Test, c: char)
    requires !drop(c)
    ensures multiset(Trim(s, drop))[c] == multiset(s)[c]
  {
    TrimStartKeepsCount(s, drop, c);
    TrimEndKeepsCount(TrimStart(s, drop), drop, c);
  }
}
