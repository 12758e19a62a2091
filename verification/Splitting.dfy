/** Splitting text at a separator and joining it again. */
module Splitting {
  /** The pieces between separators; always at least one. */
  function Split(s: string, sep: char): (r: seq<string>)
    ensures |r| >= 1
  {
    if s == [] then [[]]
    else
      var rest := Split(s[1..], sep);
      if s[0] == sep then [[]] + rest else [[s[0]] + rest[0]] + rest[1..]
  }

  function Join(cells: seq<string>, sep: char): string {
    if cells == [] then []
    else if |cells| == 1 then cells[0]
    else cells[0] + [sep] + Join(cells[1..], sep)
  }

  lemma {:induction false} SplitWithout(s: string, sep: char)
    requires sep !in s
    ensures Split(s, sep) == [s]
  {
    if s != [] {
      assert s == [s[0]] + s[1..];
      SplitWithout(s[1..], sep);
    }
  }

  lemma {:induction false} SplitAtFirst(s: string, t: string, sep: char)
    requires sep !in s
    ensures Split(s + [sep] + t, sep) == [s] + Split(t, sep)
  {
    if s == [] {
      assert (s + [sep] + t)[1..] == t;
    } else {
      assert s == [s[0]] + s[1..];
      SplitAtFirst(s[1..], t, sep);
      assert (s + [sep] + t)[1..] == s[1..] + [sep] + t;
    }
  }

  lemma {:induction false} SplitJoin(cells: seq<string>, sep: char)
    requires cells != []
    requires forall i :: 0 <= i < |cells| ==> sep !in cells[i]
    ensures Split(Join(cells, sep), sep) == cells
  {
    if |cells| == 1 {
      SplitWithout(cells[0], sep);
    } else {
      SplitJoin(cells[1..], sep);
      SplitAtFirst(cells[0], Join(cells[1..], sep), sep);
      assert cells == [cells[0]] + cells[1..];
    }
  }

  lemma {:induction false} JoinSplit(s: string, sep: char)
    ensures Join(Split(s, sep), sep) == s
  {
    if s != [] {
      JoinSplit(s[1..], sep);
      LongerFirstPiece(s[0], Split(s[1..], sep), sep);
      var pieces := Split(s, sep);
      hide Join;
      assert s == [s[0]] + s[1..];
    }
  }

  /** One character more in front of what is split. */
  lemma LongerFirstPiece(c: char, rest: seq<string>, sep: char)
    requires rest != []
    ensures Join(if c == sep then [[]] + rest else [[c] + rest[0]] + rest[1..], sep) == [c] + Join(rest, sep)
  {
    var first, others := rest[0], rest[1..];
    assert rest == [first] + others;
    JoinCons([], rest, sep);
    JoinCons(first, others, sep);
    JoinCons([c] + first, others, sep);
    var more := Join(others, sep);
    hide Join;
    Regroup([c], first, [sep], more);
  }

  lemma Regroup(a: string, b: string, c: string, d: string)
    ensures a + b + c + d == a + (b + c + d)
  {
  }

  lemma JoinCons(first: string, rest: seq<string>, sep: char)
    ensures Join([first] + rest, sep) == if rest == [] then first else first + [sep] + Join(rest, sep)
  {
    assert ([first] + rest)[1..] == rest;
  }

  lemma {:induction false} SplitPieces(s: string, sep: char)
    ensures forall i :: 0 <= i < |Split(s, sep)| ==> sep !in Split(s, sep)[i]
  {
    if s != [] {
      SplitPieces(s[1..], sep);
    }
  }

  lemma {:induction false} JoinWithout(cells: seq<string>, sep: char, c: char)
    requires c != sep
    requires forall i :: 0 <= i < |cells| ==> c !in cells[i]
    ensures c !in Join(cells, sep)
  {
    if |cells| > 1 {
      JoinWithout(cells[1..], sep, c);
    }
  }

  // ----- Lines -----

  /** A line without the carriage return before its end. */
  function StripReturn(line: string): string {
    if line != [] && line[|line| - 1] == '\r' then line[..|line| - 1] else line
  }

  function StripReturns(lines: seq<string>): (r: seq<string>)
    ensures |r| == |lines| && forall i :: 0 <= i < |lines| ==> r[i] == StripReturn(lines[i])
  {
    if lines == [] then [] else [StripReturn(lines[0])] + StripReturns(lines[1..])
  }

  /** The lines of a text, as the standard library gives them: what follows the last line feed counts if not empty. */
  function Lines(text: string): seq<string> {
    var pieces := Split(text, '\n');
    var last := pieces[|pieces| - 1];
    StripReturns(pieces[..|pieces| - 1]) + if last == [] then [] else [last]
  }

  function Unlines(lines: seq<string>): string {
    if lines == [] then [] else lines[0] + ['\n'] + Unlines(lines[1..])
  }

  predicate AreLines(lines: seq<string>) {
    forall i :: 0 <= i < |lines| ==> '\n' !in lines[i]
  }

  lemma {:induction false} LinesOfUnlines(lines: seq<string>)
    requires AreLines(lines)
    ensures Lines(Unlines(lines)) == StripReturns(lines)
  {
    SplitUnlines(lines);
    assert (lines + [[]])[..|lines|] == lines;
  }

  lemma {:induction false} SplitUnlines(lines: seq<string>)
    requires AreLines(lines)
    ensures Split(Unlines(lines), '\n') == lines + [[]]
  {
    if lines != [] {
      SplitUnlines(lines[1..]);
      SplitAtFirst(lines[0], Unlines(lines[1..]), '\n');
      assert lines == [lines[0]] + lines[1..];
    }
  }
}
