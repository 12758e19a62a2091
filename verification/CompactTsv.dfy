/** The escaped, tab-separated framing of the compact output, and the reader that undoes it. */
module CompactTsv {
  import opened Sequences
  import opened Options
  import opened Splitting

  /** Every occurrence of one character, replaced. */
  function Replace(s: string, c: char, t: string): string {
    if s == [] then [] else (if s[0] == c then t else [s[0]]) + Replace(s[1..], c, t)
  }

  /** The cell as the program escapes it: four replacements, one after the other. */
  function CompactCell(value: string): string {
    Replace(Replace(Replace(Replace(value, '\\', "\\\\"), '\t', "\\t"), '\r', "\\r"), '\n', "\\n")
  }

  /** How one character is written inside a cell. */
  function EscapeChar(c: char): string {
    match c
    case '\\' => "\\\\"
    case '\t' => "\\t"
    case '\r' => "\\r"
    case '\n' => "\\n"
    case _ => [c]
  }

  function Escape(s: string): string {
    if s == [] then [] else EscapeChar(s[0]) + Escape(s[1..])
  }

  predicate IsFraming(c: char) {
    c == '\t' || c == '\r' || c == '\n'
  }

  /** A strict reader of cells: only the four escapes, and no raw framing character. */
  function Unescape(s: string): Option<string> {
    if s == [] then Some([])
    else if s[0] == '\\' then
      if |s| < 2 then None
      else
        match Unescape(s[2..])
        case None => None
        case Some(rest) =>
          if s[1] == '\\' then Some(['\\'] + rest)
          else if s[1] == 't' then Some(['\t'] + rest)
          else if s[1] == 'r' then Some(['\r'] + rest)
          else if s[1] == 'n' then Some(['\n'] + rest)
          else None
    else if IsFraming(s[0]) then None
    else
      match Unescape(s[1..])
      case None => None
      case Some(rest) => Some([s[0]] + rest)
  }

  function EscapeCells(cells: seq<string>): seq<string> {
    if cells == [] then [] else [CompactCell(cells[0])] + EscapeCells(cells[1..])
  }

  function UnescapeCells(cells: seq<string>): Option<seq<string>> {
    if cells == [] then Some([])
    else
      match (Unescape(cells[0]), UnescapeCells(cells[1..]))
      case (Some(c), Some(rest)) => Some([c] + rest)
      case _ => None
  }

  type Row = seq<string>

  function PrintRow(row: Row): string {
    Join(EscapeCells(row), '\t') + "\n"
  }

  /** One cell of a formatted row, and what follows its tab. */
  function TabThen(cell: string, rest: string): string {
    cell + "\t" + rest
  }

  /** The last cell of a formatted row. */
  function EndRow(cell: string): string {
    cell + "\n"
  }

  function PrintRows(rows: seq<Row>): string {
    if rows == [] then [] else PrintRow(rows[0]) + PrintRows(rows[1..])
  }

  function ParseLines(lines: seq<string>): Option<seq<Row>> {
    if lines == [] then Some([])
    else
      match (UnescapeCells(Split(lines[0], '\t')), ParseLines(lines[1..]))
      case (Some(row), Some(rest)) => Some([row] + rest)
      case _ => None
  }

  /** Reads a document: every line ends in LF, cells are separated by tabs. */
  function ParseRows(text: string): Option<seq<Row>> {
    var lines := Split(text, '\n');
    if lines[|lines| - 1] == [] then ParseLines(lines[..|lines| - 1]) else None
  }

  // ----- Escaping -----

  lemma {:induction false} ReplaceAppend(a: string, b: string, c: char, t: string)
    ensures Replace(a + b, c, t) == Replace(a, c, t) + Replace(b, c, t)
  {
    if a == [] {
      assert a + b == b;
    } else {
      ReplaceAppend(a[1..], b, c, t);
      assert (a + b)[1..] == a[1..] + b && (a + b)[0] == a[0];
    }
  }

  lemma CellAppend(a: string, b: string)
    ensures CompactCell(a + b) == CompactCell(a) + CompactCell(b)
  {
    ReplaceAppend(a, b, '\\', "\\\\");
    var a1, b1 := Replace(a, '\\', "\\\\"), Replace(b, '\\', "\\\\");
    ReplaceAppend(a1, b1, '\t', "\\t");
    var a2, b2 := Replace(a1, '\t', "\\t"), Replace(b1, '\t', "\\t");
    ReplaceAppend(a2, b2, '\r', "\\r");
    ReplaceAppend(Replace(a2, '\r', "\\r"), Replace(b2, '\r', "\\r"), '\n', "\\n");
  }

  lemma ReplaceOne(c: char, d: char, t: string)
    ensures Replace([d], c, t) == if d == c then t else [d]
  {
    assert [d][1..] == [];
    assert Replace([], c, t) == [];
  }

  lemma ReplaceTwo(x: char, y: char, c: char, t: string)
    requires x != c && y != c
    ensures Replace([x, y], c, t) == [x, y]
  {
    assert [x, y] == [x] + [y];
    ReplaceAppend([x], [y], c, t);
    ReplaceOne(c, x, t);
    ReplaceOne(c, y, t);
  }

  lemma CellOfOne(c: char)
    ensures CompactCell([c]) == EscapeChar(c)
  {
    ReplaceOne('\\', c, "\\\\");
    if c == '\\' {
      ReplaceTwo('\\', '\\', '\t', "\\t");
      ReplaceTwo('\\', '\\', '\r', "\\r");
      ReplaceTwo('\\', '\\', '\n', "\\n");
    } else {
      ReplaceOne('\t', c, "\\t");
      if c == '\t' {
        ReplaceTwo('\\', 't', '\r', "\\r");
        ReplaceTwo('\\', 't', '\n', "\\n");
      } else {
        ReplaceOne('\r', c, "\\r");
        if c == '\r' {
          ReplaceTwo('\\', 'r', '\n', "\\n");
        } else {
          ReplaceOne('\n', c, "\\n");
        }
      }
    }
  }

  /** The four chained replacements are one left-to-right pass. */
  lemma {:induction false} CompactCellIsOnePass(s: string)
    ensures CompactCell(s) == Escape(s)
  {
    if s != [] {
      CellAppend([s[0]], s[1..]);
      assert s == [s[0]] + s[1..];
      CellOfOne(s[0]);
      CompactCellIsOnePass(s[1..]);
    }
  }

  lemma {:induction false} EscapeHasNoFraming(s: string)
    ensures forall c :: c in Escape(s) ==> !IsFraming(c)
  {
    if s != [] {
      EscapeHasNoFraming(s[1..]);
    }
  }

  lemma CellHasNoFraming(s: string)
    ensures forall c :: c in CompactCell(s) ==> !IsFraming(c)
  {
    CompactCellIsOnePass(s);
    EscapeHasNoFraming(s);
  }

  lemma {:induction false} UnescapeEscape(s: string)
    ensures Unescape(Escape(s)) == Some(s)
  {
    if s != [] {
      UnescapeEscape(s[1..]);
      UnescapeFirst(s[0], Escape(s[1..]));
      hide Unescape;
      assert s == [s[0]] + s[1..];
    }
  }

  lemma UnescapeFirst(c: char, rest: string)
    requires Unescape(rest).Some?
    ensures Unescape(EscapeChar(c) + rest) == Some([c] + Unescape(rest).value)
  {
    var e := EscapeChar(c) + rest;
    if |EscapeChar(c)| == 2 {
      assert e[2..] == rest && e[0] == '\\' && e[1] == EscapeChar(c)[1];
    } else {
      assert e[1..] == rest && e[0] == c;
    }
  }

  lemma {:induction false} EscapeUnescape(s: string)
    requires Unescape(s).Some?
    ensures Escape(Unescape(s).value) == s
  {
    if s == [] {
    } else if s[0] == '\\' {
      EscapeUnescape(s[2..]);
      var t := Unescape(s).value;
      assert t[1..] == Unescape(s[2..]).value;
      assert s == [s[0], s[1]] + s[2..];
    } else {
      EscapeUnescape(s[1..]);
      var t := Unescape(s).value;
      assert t[1..] == Unescape(s[1..]).value;
      assert s == [s[0]] + s[1..];
    }
  }

  /** The reader accepts exactly the cells the program writes, and returns what was written. */
  lemma UnescapeInvertsCompactCell(s: string, value: string)
    ensures Unescape(s) == Some(value) <==> s == CompactCell(value)
  {
    CompactCellIsOnePass(value);
    UnescapeEscape(value);
    if Unescape(s) == Some(value) {
      EscapeUnescape(s);
    }
  }

  lemma {:induction false} EscapedCells(cells: seq<string>)
    ensures |EscapeCells(cells)| == |cells|
    ensures forall i :: 0 <= i < |cells| ==> EscapeCells(cells)[i] == CompactCell(cells[i])
    ensures forall i :: 0 <= i < |cells| ==> '\t' !in EscapeCells(cells)[i] && '\n' !in EscapeCells(cells)[i]
    ensures UnescapeCells(EscapeCells(cells)) == Some(cells)
  {
    if cells != [] {
      EscapedCells(cells[1..]);
      CellHasNoFraming(cells[0]);
      UnescapeInvertsCompactCell(CompactCell(cells[0]), cells[0]);
      assert cells == [cells[0]] + cells[1..];
    }
  }

  lemma {:induction false} UnescapedCells(cells: seq<string>)
    requires UnescapeCells(cells).Some?
    ensures EscapeCells(UnescapeCells(cells).value) == cells
    ensures |UnescapeCells(cells).value| == |cells|
  {
    if cells != [] {
      UnescapedCells(cells[1..]);
      var first, rest := Unescape(cells[0]).value, UnescapeCells(cells[1..]).value;
      assert UnescapeCells(cells).value == [first] + rest;
      UnescapeInvertsCompactCell(cells[0], first);
      EscapeCellsCons(first, rest);
      hide *;
      assert cells == [cells[0]] + cells[1..];
    }
  }

  lemma EscapeCellsCons(first: string, rest: seq<string>)
    ensures EscapeCells([first] + rest) == [CompactCell(first)] + EscapeCells(rest)
  {
    assert ([first] + rest)[1..] == rest;
  }

  ghost predicate Proper(rows: seq<Row>) {
    forall i :: 0 <= i < |rows| ==> rows[i] != []
  }

  lemma LineOf(row: Row)
    requires row != []
    ensures var line := Join(EscapeCells(row), '\t'); '\n' !in line && UnescapeCells(Split(line, '\t')) == Some(row)
  {
    EscapedCells(row);
    SplitJoin(EscapeCells(row), '\t');
    JoinWithout(EscapeCells(row), '\t', '\n');
  }

  lemma {:induction false} LinesOf(rows: seq<Row>)
    requires Proper(rows)
    ensures var lines := Split(PrintRows(rows), '\n');
      lines[|lines| - 1] == [] && ParseLines(lines[..|lines| - 1]) == Some(rows)
  {
    if rows != [] {
      LinesOf(rows[1..]);
      HeadAndTail(rows);
      LinesStep(rows[0], rows[1..]);
      hide *;
    }
  }

  lemma LinesStep(row: Row, rows: seq<Row>)
    requires row != []
    requires var rest := Split(PrintRows(rows), '\n');
      rest[|rest| - 1] == [] && ParseLines(rest[..|rest| - 1]) == Some(rows)
    ensures var lines := Split(PrintRows([row] + rows), '\n');
      lines[|lines| - 1] == [] && ParseLines(lines[..|lines| - 1]) == Some([row] + rows)
  {
    LineOf(row);
    PrintCons(row, rows);
    var line, text := Join(EscapeCells(row), '\t'), PrintRows(rows);
    SplitAtFirst(line, text, '\n');
    var rest := Split(text, '\n');
    InitOfCons(line, rest);
    ParseLine(line, rest[..|rest| - 1], row);
    hide *;
  }

  lemma PrintCons(row: Row, rows: seq<Row>)
    ensures PrintRows([row] + rows) == Join(EscapeCells(row), '\t') + ['\n'] + PrintRows(rows)
  {
    TailOfCons(row, rows);
    hide Join;
    hide EscapeCells;
  }

  lemma InitOfCons<T>(x: T, s: seq<T>)
    requires s != []
    ensures var all := [x] + s; all[..|all| - 1] == [x] + s[..|s| - 1] && all[|all| - 1] == s[|s| - 1]
  {
  }

  lemma ParseLine(line: string, lines: seq<string>, row: Row)
    requires UnescapeCells(Split(line, '\t')) == Some(row) && ParseLines(lines).Some?
    ensures ParseLines([line] + lines) == Some([row] + ParseLines(lines).value)
  {
    hide UnescapeCells;
    hide Split;
    TailOfCons(line, lines);
  }

  /** Reading a printed document gives back the original cells, for every list of rows of one cell or more. */
  lemma DocumentRoundTrip(rows: seq<Row>)
    requires Proper(rows)
    ensures ParseRows(PrintRows(rows)) == Some(rows)
  {
    LinesOf(rows);
  }

  lemma {:induction false} PrintedLines(lines: seq<string>)
    requires ParseLines(lines).Some?
    ensures PrintRows(ParseLines(lines).value) == Join(lines + [[]], '\n')
    ensures Proper(ParseLines(lines).value)
  {
    if lines != [] {
      PrintedLines(lines[1..]);
      var rows := ParseLines(lines).value;
      assert rows[1..] == ParseLines(lines[1..]).value;
      var cells := Split(lines[0], '\t');
      UnescapedCells(cells);
      JoinSplit(lines[0], '\t');
      assert (lines + [[]])[1..] == lines[1..] + [[]];
    }
  }

  /** And the reader accepts nothing but printed documents. */
  lemma OnlyPrintedDocumentsParse(text: string, rows: seq<Row>)
    ensures ParseRows(text) == Some(rows) <==> Proper(rows) && text == PrintRows(rows)
  {
    if Proper(rows) {
      DocumentRoundTrip(rows);
    }
    ParsedIsPrinted(text);
    hide ParseRows;
    hide PrintRows;
    hide Proper;
  }

  lemma ParsedIsPrinted(text: string)
    ensures ParseRows(text).Some? ==> Proper(ParseRows(text).value) && text == PrintRows(ParseRows(text).value)
  {
    var lines := Split(text, '\n');
    JoinSplit(text, '\n');
    InitAndLast(lines);
    if ParseLines(lines[..|lines| - 1]).Some? {
      PrintedLines(lines[..|lines| - 1]);
    }
    hide ParseLines;
    hide PrintRows;
    hide Split;
    hide Join;
    hide Proper;
  }

  lemma {:induction false} PrintAppend(a: seq<Row>, b: seq<Row>)
    ensures PrintRows(a + b) == PrintRows(a) + PrintRows(b)
  {
    if a == [] {
      assert a + b == b;
    } else {
      PrintAppend(a[1..], b);
      assert (a + b)[1..] == a[1..] + b && (a + b)[0] == a[0];
      hide PrintRow;
      var first := PrintRow(a[0]);
      assert first + (PrintRows(a[1..]) + PrintRows(b)) == (first + PrintRows(a[1..])) + PrintRows(b);
    }
  }
}
