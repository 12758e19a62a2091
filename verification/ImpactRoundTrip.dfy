/** The parser gives back what the compact impact report was printed from, and exactly when. */
module ImpactRoundTrip {
  import opened Sequences
  import opened Options
  import opened Ordering
  import opened CompactTsv
  import opened Paths
  import opened DisplayedFiles
  import opened Roses
  import opened ImpactOutput

  // ----- The text is a document of escaped cells -----

  lemma {:induction false} PlainTextEscapesToItself(s: string)
    requires forall c :: c in s ==> c != '\\' && !IsFraming(c)
    ensures CompactCell(s) == s
  {
    CompactCellIsOnePass(s);
    if s != [] {
      assert forall c :: c in s[1..] ==> c in s;
      assert s[0] in s;
      PlainTextEscapesToItself(s[1..]);
      CompactCellIsOnePass(s[1..]);
      assert s == [s[0]] + s[1..];
    }
  }

  lemma NumbersEscapeToThemselves(n: nat)
    ensures CompactCell(Decimal.Print(n)) == Decimal.Print(n)
  {
    Decimal.ReadPrint(n);
    PlainTextEscapesToItself(Decimal.Print(n));
  }

  lemma EscapeCons(c: string, rest: seq<string>)
    ensures EscapeCells([c] + rest) == [CompactCell(c)] + EscapeCells(rest)
    ensures |EscapeCells(rest)| == |rest|
  {
    assert ([c] + rest)[1..] == rest;
    EscapedCells(rest);
  }

  /** A printed row, cell by cell. */
  lemma PrintedCons(row: Row)
    requires |row| >= 2
    ensures PrintRow(row) == TabThen(CompactCell(row[0]), PrintRow(row[1..]))
  {
    EscapeCons(row[0], row[1..]);
    assert row == [row[0]] + row[1..];
    hide CompactCell;
    var rest := EscapeCells(row[1..]);
    assert EscapeCells(row)[1..] == rest;
  }

  lemma PrintedOne(row: Row)
    requires |row| == 1
    ensures PrintRow(row) == EndRow(CompactCell(row[0]))
  {
    EscapeCons(row[0], []);
    assert row == [row[0]] + [];
  }

  lemma PrintedFour(row: Row)
    requires |row| == 4
    ensures PrintRow(row)
         == TabThen(CompactCell(row[0]), TabThen(CompactCell(row[1]), TabThen(CompactCell(row[2]),
              EndRow(CompactCell(row[3])))))
  {
    PrintedCons(row);
    PrintedCons(row[1..]);
    assert row[1..][1..] == row[2..];
    PrintedCons(row[2..]);
    assert row[2..][1..] == row[3..];
    PrintedOne(row[3..]);
  }

  lemma PrintedEight(row: Row)
    requires |row| == 8
    ensures PrintRow(row)
         == EightCells(CompactCell(row[0]), CompactCell(row[1]), CompactCell(row[2]), CompactCell(row[3]),
                       CompactCell(row[4]), CompactCell(row[5]), CompactCell(row[6]), CompactCell(row[7]))
  {
    hide PrintRow;
    hide CompactCell;
    hide TabThen;
    hide EndRow;
    PrintedCons(row);
    PrintedCons(row[1..]);
    assert row[1..][1..] == row[2..];
    PrintedCons(row[2..]);
    assert row[2..][1..] == row[3..];
    PrintedCons(row[3..]);
    assert row[3..][1..] == row[4..];
    PrintedFour(row[4..]);
  }

  lemma RowTextIsRow(t: CallerTree, depth: nat, prefix: Path)
    ensures RowText(t, depth, prefix) == PrintRow(CallerRow(depth, Displayed(prefix)(Content(t).tag)))
  {
    hide PrintRow;
    hide CompactCell;
    hide EightCells;
    NumbersEscapeToThemselves(depth);
    NumbersEscapeToThemselves(t.callerCount);
    PlainTextEscapesToItself("caller");
    PlainTextEscapesToItself(Decimal.PrintBool(t.truncated));
    PrintedEight(CallerRow(depth, Displayed(prefix)(Content(t).tag)));
  }

  lemma TargetRowTextIsRow(name: string)
    ensures TargetRowText(name) == PrintRow(TargetRow(name))
  {
    hide PrintRow;
    hide CompactCell;
    hide EightCells;
    PlainTextEscapesToItself("target");
    PlainTextEscapesToItself("0");
    PlainTextEscapesToItself("");
    PlainTextEscapesToItself("false");
    PrintedEight(TargetRow(name));
  }

  lemma PrefixedCell(keyword: string, value: string)
    requires forall c :: c in keyword ==> c != '\\' && !IsFraming(c)
    ensures CompactCell(keyword + value) == keyword + CompactCell(value)
  {
    CellAppend(keyword, value);
    PlainTextEscapesToItself(keyword);
  }

  lemma HeaderTextIsRows(total: nat, prefix: Path)
    ensures HeaderText(total, prefix) == PrintRows([HeaderRow(total, Render(prefix)), COLUMNS])
  {
    hide PrintRow;
    hide CompactCell;
    hide TabThen;
    hide EndRow;
    hide EightCells;
    PlainTextEscapesToItself("@impact");
    PlainTextEscapesToItself("1");
    PrefixedCell("targets=", Decimal.Print(total));
    NumbersEscapeToThemselves(total);
    PrefixedCell("prefix=", Render(prefix));
    var row := HeaderRow(total, Render(prefix));
    PrintedFour(row);
    ColumnsText();
    PrintTwo(row, COLUMNS);
  }

  lemma PrintTwo(a: Row, b: Row)
    ensures PrintRows([a, b]) == PrintRow(a) + PrintRow(b)
  {
    assert [a, b][1..] == [b];
    PrintOne(b);
  }

  lemma ColumnsText()
    ensures PrintRow(COLUMNS)
         == TabThen("@columns",
                     EightCells("kind", "depth", "file", "function", "callers", "truncated", "note", "receiver"))
  {
    hide PrintRow;
    hide CompactCell;
    hide TabThen;
    hide EightCells;
    PlainTextEscapesToItself("@columns");
    PlainTextEscapesToItself("kind");
    PlainTextEscapesToItself("depth");
    PlainTextEscapesToItself("file");
    PlainTextEscapesToItself("function");
    PlainTextEscapesToItself("callers");
    PlainTextEscapesToItself("truncated");
    PlainTextEscapesToItself("note");
    PlainTextEscapesToItself("receiver");
    PrintedCons(COLUMNS);
    PrintedEight(COLUMNS[1..]);
  }

  function RowsOf(listing: seq<(nat, Entry<string>)>): (rows: seq<Row>)
    ensures |rows| == |listing|
    ensures forall i :: 0 <= i < |listing| ==> rows[i] == CallerRow(listing[i].0, listing[i].1)
  {
    if listing == [] then []
    else [CallerRow(listing[0].0, listing[0].1)] + RowsOf(listing[1..])
  }

  function TargetsRows(targets: seq<Target<Entry<string>>>): seq<Row> {
    if targets == [] then []
    else [TargetRow(targets[0].name)] + RowsOf(Flatten(targets[0].tree, 0)) + TargetsRows(targets[1..])
  }

  lemma RowsAppend(a: seq<(nat, Entry<string>)>, b: seq<(nat, Entry<string>)>)
    ensures RowsOf(a + b) == RowsOf(a) + RowsOf(b)
  {
  }

  lemma PrintOne(row: Row)
    ensures PrintRows([row]) == PrintRow(row)
  {
    assert [row][1..] == [];
    assert PrintRows([row]) == PrintRow(row) + PrintRows([]);
  }

  lemma CallerTextIsRows(t: CallerTree, depth: nat, prefix: Path)
    ensures CallerText(t, depth, prefix) == PrintRows(RowsOf(Flatten(MapRose(Content(t), Displayed(prefix)), depth)))
    decreases t, 1
  {
    var shown := MapRose(Content(t), Displayed(prefix));
    RowTextIsRow(t, depth, prefix);
    CallersTextIsRows(t.callers, depth + 1, prefix);
    var first := [(depth, shown.tag)];
    RowsAppend(first, FlattenAll(shown.children, depth + 1));
    PrintAppend(RowsOf(first), RowsOf(FlattenAll(shown.children, depth + 1)));
    assert RowsOf(first) == [CallerRow(depth, shown.tag)];
    PrintOne(CallerRow(depth, shown.tag));
  }

  lemma {:induction false} CallersTextIsRows(ts: seq<CallerTree>, depth: nat, prefix: Path)
    ensures CallersText(ts, depth, prefix)
         == PrintRows(RowsOf(FlattenAll(MapAll(Contents(ts), Displayed(prefix)), depth)))
    decreases ts, 0
  {
    if ts != [] {
      CallerTextIsRows(ts[0], depth, prefix);
      CallersTextIsRows(ts[1..], depth, prefix);
      var shown := MapAll(Contents(ts), Displayed(prefix));
      assert Contents(ts)[0] == Content(ts[0]) && Contents(ts)[1..] == Contents(ts[1..]);
      assert shown[0] == MapRose(Content(ts[0]), Displayed(prefix));
      assert shown[1..] == MapAll(Contents(ts[1..]), Displayed(prefix));
      RowsAppend(Flatten(shown[0], depth), FlattenAll(shown[1..], depth));
      PrintAppend(RowsOf(Flatten(shown[0], depth)), RowsOf(FlattenAll(shown[1..], depth)));
    }
  }

  lemma {:induction false} TargetsTextIsRows(report: ImpactReport, names: seq<string>, prefix: Path)
    requires forall name :: name in names ==> name in report.targets
    ensures TargetsText(report, names, prefix)
         == PrintRows(TargetsRows(MapTargets(TargetsOf(report, names), Displayed(prefix))))
  {
    if names != [] {
      var t := report.targets[names[0]];
      TargetsTextIsRows(report, names[1..], prefix);
      CallerTextIsRows(t, 0, prefix);
      TargetRowTextIsRow(names[0]);
      var shown := MapTargets(TargetsOf(report, names), Displayed(prefix));
      assert TargetsOf(report, names)[1..] == TargetsOf(report, names[1..]);
      assert shown[0] == Target(names[0], MapRose(Content(t), Displayed(prefix)));
      assert shown[1..] == MapTargets(TargetsOf(report, names[1..]), Displayed(prefix));
      var row, rows, rest := TargetRow(names[0]), RowsOf(Flatten(shown[0].tree, 0)), TargetsRows(shown[1..]);
      PrintAppend([row], rows);
      PrintAppend([row] + rows, rest);
      PrintOne(row);
    }
  }

  // ----- The rows are read back -----

  lemma ReadCallerRow(depth: nat, e: Entry<string>)
    ensures ReadCaller(CallerRow(depth, e)) == Some((depth, e))
  {
    Decimal.ReadPrint(depth);
    Decimal.ReadPrint(e.callers);
  }

  lemma {:induction false} LeadingCallersOf(listing: seq<(nat, Entry<string>)>, rest: seq<Row>)
    requires rest == [] || ReadCaller(rest[0]) == None
    ensures LeadingCallers(RowsOf(listing) + rest) == listing
  {
    if listing == [] {
      assert RowsOf(listing) + rest == rest;
    } else {
      LeadingCallersOf(listing[1..], rest);
      LeadingCallersStep(listing[0], listing[1..], rest);
      HeadAndTail(listing);
      hide *;
    }
  }

  lemma LeadingCallersStep(first: (nat, Entry<string>), listing: seq<(nat, Entry<string>)>, rest: seq<Row>)
    requires LeadingCallers(RowsOf(listing) + rest) == listing
    ensures LeadingCallers(RowsOf([first] + listing) + rest) == [first] + listing
  {
    ReadCallerRow(first.0, first.1);
    TailOfCons(first, listing);
    assert RowsOf([first] + listing) == [CallerRow(first.0, first.1)] + RowsOf(listing);
    hide *;
    Associative([CallerRow(first.0, first.1)], RowsOf(listing), rest);
    LeadingCaller(CallerRow(first.0, first.1), RowsOf(listing) + rest, first);
  }

  lemma LeadingCaller(row: Row, rest: seq<Row>, caller: (nat, Entry<string>))
    requires ReadCaller(row) == Some(caller)
    ensures LeadingCallers([row] + rest) == [caller] + LeadingCallers(rest)
  {
    hide ReadCaller;
    assert ([row] + rest)[1..] == rest;
  }

  lemma {:induction false} ReadTargetsRows(targets: seq<Target<Entry<string>>>)
    ensures ReadTargets(TargetsRows(targets)) == Some(targets)
  {
    if targets == [] {
      assert ReadTargets([]) == Some([]);
    } else {
      ReadTargetsRows(targets[1..]);
      ReadFirstTarget(targets[0], targets[1..]);
      TargetsRowsShape(targets);
      hide ReadTargets;
      hide TargetsRows;
      assert targets == [targets[0]] + targets[1..];
    }
  }

  lemma TargetsRowsShape(targets: seq<Target<Entry<string>>>)
    requires targets != []
    ensures TargetsRows(targets)
         == [TargetRow(targets[0].name)] + (RowsOf(Flatten(targets[0].tree, 0)) + TargetsRows(targets[1..]))
  {
  }

  lemma ReadFirstTarget(t: Target<Entry<string>>, others: seq<Target<Entry<string>>>)
    requires ReadTargets(TargetsRows(others)) == Some(others)
    ensures ReadTargets([TargetRow(t.name)] + (RowsOf(Flatten(t.tree, 0)) + TargetsRows(others))) == Some([t] + others)
  {
    hide ReadTargets;
    hide TargetsRows;
    hide LeadingCallers;
    hide Rebuild;
    var listing, rest := Flatten(t.tree, 0), TargetsRows(others);
    TargetsRowsStart(others);
    LeadingCallersOf(listing, rest);
    TreeFromDepths(t.tree);
    hide Flatten;
    ReadTargetsStep(t.name, RowsOf(listing), rest, listing, t.tree);
  }

  lemma ReadTargetsStep(name: string, callerRows: seq<Row>, rest: seq<Row>, listing: seq<(nat, Entry<string>)>,
                        tree: Rose<Entry<string>>)
    requires |callerRows| == |listing| && LeadingCallers(callerRows + rest) == listing
    requires Rebuild(listing, 0) == ([tree], []) && ReadTargets(rest).Some?
    ensures ReadTargets([TargetRow(name)] + (callerRows + rest)) == Some([Target(name, tree)] + ReadTargets(rest).value)
  {
    hide LeadingCallers;
    hide Rebuild;
    RowsAfter(TargetRow(name), callerRows, rest);
    ReadTargetsFrom([TargetRow(name)] + (callerRows + rest), name, listing, tree);
    hide ReadTargets;
  }

  lemma ReadTargetsFrom(rows: seq<Row>, name: string, listing: seq<(nat, Entry<string>)>, tree: Rose<Entry<string>>)
    requires rows != [] && rows[0] == TargetRow(name) && LeadingCallers(rows[1..]) == listing
    requires Rebuild(listing, 0) == ([tree], []) && ReadTargets(rows[1 + |listing|..]).Some?
    ensures ReadTargets(rows) == Some([Target(name, tree)] + ReadTargets(rows[1 + |listing|..]).value)
  {
    hide LeadingCallers;
    hide Rebuild;
    assert TargetRow(name)[3] == name && |TargetRow(name)| == 8;
    hide TargetRow;
  }

  lemma RowsAfter<T>(first: T, middle: seq<T>, last: seq<T>)
    ensures var all := [first] + (middle + last);
      all != [] && all[0] == first && all[1..] == middle + last && all[1 + |middle|..] == last
  {
  }

  lemma TargetsRowsStart(targets: seq<Target<Entry<string>>>)
    ensures TargetsRows(targets) == [] || ReadCaller(TargetsRows(targets)[0]) == None
  {
  }

  lemma ReadKeyword(keyword: string, rest: string)
    ensures ReadAfter(keyword, keyword + rest) == Some(rest)
  {
  }

  lemma RowsAreProper(targets: seq<Target<Entry<string>>>)
    ensures Proper(TargetsRows(targets))
  {
    if targets != [] {
      RowsAreProper(targets[1..]);
    }
  }

  /** What the parser makes of a printed report. */
  lemma ParsedText(total: nat, prefix: Path, shown: seq<Target<Entry<string>>>)
    ensures ReadReport(HeaderText(total, prefix) + PrintRows(TargetsRows(shown)))
         == Some(ShownReport(total, Render(prefix), shown))
  {
    hide ParseRows;
    hide ReadTargets;
    hide HeaderText;
    hide TargetsRows;
    hide PrintRows;
    hide MapTargets;
    hide TargetLabels;
    hide Render;
    var head := [HeaderRow(total, Render(prefix)), COLUMNS];
    var rows := head + TargetsRows(shown);
    HeaderTextIsRows(total, prefix);
    PrintAppend(head, TargetsRows(shown));
    RowsAreProper(shown);
    DocumentRoundTrip(rows);
    ReadTargetsRows(shown);
    ReadKeyword("targets=", Decimal.Print(total));
    ReadKeyword("prefix=", Render(prefix));
    Decimal.ReadPrint(total);
    assert rows[2..] == TargetsRows(shown);
    assert rows[0] == HeaderRow(total, Render(prefix)) && rows[1] == COLUMNS;
  }

  // ----- The files -----

  lemma {:induction false} RelabelTargets<A(!new), B(!new)>(ts: seq<Target<A>>, f: A -> B, g: B -> A)
    ensures MapTargets(MapTargets(ts, f), g) == ts <==> forall x :: x in TargetLabels(ts) ==> g(f(x)) == x
  {
    if ts != [] {
      var t, rest := ts[0], ts[1..];
      RelabelTargets(rest, f, g);
      RelabelOne(t.tree, f, g);
      var m := MapTargets(ts, f);
      assert m[1..] == MapTargets(rest, f);
      assert MapTargets(m, g) == [Target(t.name, MapRose(MapRose(t.tree, f), g))] + MapTargets(MapTargets(rest, f), g);
      assert ts == [t] + rest;
    }
  }

  lemma RelabelOne<A(!new), B(!new)>(t: Rose<A>, f: A -> B, g: B -> A)
    ensures MapRose(MapRose(t, f), g) == t <==> forall x :: x in Labels(t) ==> g(f(x)) == x
  {
    RelabelBack(t.children, f, g);
  }

  lemma {:induction false} TargetLabelsOfMapped<A(!new), B(!new)>(ts: seq<Target<A>>, f: A -> B)
    ensures |TargetLabels(MapTargets(ts, f))| == |TargetLabels(ts)|
    ensures forall i :: 0 <= i < |TargetLabels(ts)| ==> TargetLabels(MapTargets(ts, f))[i] == f(TargetLabels(ts)[i])
  {
    if ts != [] {
      var t, rest := ts[0], ts[1..];
      TargetLabelsOfMapped(rest, f);
      LabelsOfMapped(t.tree.children, f);
      var m := MapTargets(ts, f);
      assert m[1..] == MapTargets(rest, f) && m[0].tree == MapRose(t.tree, f);
      assert TargetLabels(m) == Labels(MapRose(t.tree, f)) + TargetLabels(MapTargets(rest, f));
    }
  }

  /** The normalised files of a report, target by target, each tree in pre-order. */
  function FilesOf(report: ImpactReport, names: seq<string>): seq<Path>
    requires forall name :: name in names ==> name in report.targets
  {
    CollectAllPaths(TreesOf(report, names))
  }

  function FilesIn(es: seq<Entry<Path>>): (files: seq<Path>)
    ensures |files| == |es|
    ensures forall i :: 0 <= i < |es| ==> files[i] == es[i].file
  {
    if es == [] then [] else [es[0].file] + FilesIn(es[1..])
  }

  lemma FilesInAppend(a: seq<Entry<Path>>, b: seq<Entry<Path>>)
    ensures FilesIn(a + b) == FilesIn(a) + FilesIn(b)
  {
  }

  lemma FilesOfTree(t: CallerTree)
    ensures CollectPaths(t) == FilesIn(Labels(Content(t)))
    decreases t, 1
  {
    FilesOfTrees(t.callers);
    var e := Content(t).tag;
    FilesInAppend([e], AllLabels(Contents(t.callers)));
    assert FilesIn([e]) == [e.file];
  }

  lemma {:induction false} FilesOfTrees(ts: seq<CallerTree>)
    ensures CollectAllPaths(ts) == FilesIn(AllLabels(Contents(ts)))
    decreases ts, 0
  {
    if ts != [] {
      FilesOfTree(ts[0]);
      FilesOfTrees(ts[1..]);
      assert Contents(ts)[1..] == Contents(ts[1..]) && Contents(ts)[0] == Content(ts[0]);
      FilesInAppend(Labels(Content(ts[0])), AllLabels(Contents(ts[1..])));
    }
  }

  lemma {:induction false} LabelsOfTargets(report: ImpactReport, names: seq<string>)
    requires forall name :: name in names ==> name in report.targets
    ensures TargetLabels(TargetsOf(report, names)) == AllLabels(Contents(TreesOf(report, names)))
  {
    if names != [] {
      LabelsOfTargets(report, names[1..]);
      assert TargetsOf(report, names)[1..] == TargetsOf(report, names[1..]);
      assert TreesOf(report, names)[1..] == TreesOf(report, names[1..]);
      assert Contents(TreesOf(report, names))[1..] == Contents(TreesOf(report, names[1..]));
    }
  }

  lemma {:induction false} FilesArePlain(es: seq<CallerTree>)
    ensures AllPlain(CollectAllPaths(es))
    decreases es, 0
  {
    if es != [] {
      FilesArePlain(es[1..]);
      FilesArePlain(es[0].callers);
      NormalizedIsPlain(es[0].file);
    }
  }

  /** Reading the displayed entries back recovers all of them exactly when it recovers all the files. */
  lemma EntriesRecoveredIff(labels: seq<Entry<Path>>, shown: seq<Entry<string>>, paths: seq<Path>)
    requires |labels| == |paths| == |shown|
    requires forall i :: 0 <= i < |paths| ==> paths[i] == labels[i].file
    requires forall i :: 0 <= i < |paths| ==> shown[i] == Displayed(CommonPathPrefix(paths))(labels[i])
    ensures CellsOf(shown) == ShownCells(paths)
    ensures var prefix := CommonPathPrefix(paths);
      var g := WithFile(Render(prefix), Alike(CellsOf(shown)));
      (forall x :: x in labels ==> g(Displayed(prefix)(x)) == x) <==> AllDecoded(paths)
  {
    var prefix := CommonPathPrefix(paths);
    CellsAreShown(labels, shown, paths, prefix);
    assert CellsOf(shown) == ShownCells(paths);
    RecoveredAsApplied(labels, prefix, Alike(CellsOf(shown)));
    AllRecoveredIff(labels, paths);
    hide *;
  }

  /** The entry comes back from what is displayed of it. */
  predicate IsRecovered(x: Entry<Path>, prefix: Path, alike: bool) {
    WithFile(Render(prefix), alike)(Displayed(prefix)(x)) == x
  }

  lemma RecoveredAsApplied(labels: seq<Entry<Path>>, prefix: Path, alike: bool)
    ensures (forall x :: x in labels ==> IsRecovered(x, prefix, alike)) <==>
      forall x :: x in labels ==> WithFile(Render(prefix), alike)(Displayed(prefix)(x)) == x
  {
    hide WithFile;
    hide Displayed;
    hide Render;
  }

  lemma AllRecoveredIff(labels: seq<Entry<Path>>, paths: seq<Path>)
    requires |labels| == |paths| && forall i :: 0 <= i < |paths| ==> paths[i] == labels[i].file
    ensures (forall x :: x in labels ==> IsRecovered(x, CommonPathPrefix(paths), Alike(ShownCells(paths))))
       <==> AllDecoded(paths)
  {
    var prefix, alike := CommonPathPrefix(paths), Alike(ShownCells(paths));
    forall i | 0 <= i < |labels|
      ensures IsRecovered(labels[i], prefix, alike) <==> Decoded(paths, paths[i]) == paths[i]
    {
      EntryRecoveredIff(labels[i], paths);
    }
    hide IsRecovered;
    hide Decoded;
    hide CommonPathPrefix;
    hide ShownCells;
    hide Alike;
    assert forall i :: 0 <= i < |labels| ==> labels[i] in labels && paths[i] in paths;
  }

  lemma CellsAreShown(labels: seq<Entry<Path>>, shown: seq<Entry<string>>, paths: seq<Path>, prefix: Path)
    requires |labels| == |paths| == |shown|
    requires forall i :: 0 <= i < |paths| ==> paths[i] == labels[i].file
    requires forall i :: 0 <= i < |paths| ==> shown[i] == Displayed(prefix)(labels[i])
    ensures CellsOf(shown) == CellsUnder(paths, prefix)
  {
    hide StripPrefixDisplay;
  }

  lemma EntryRecoveredIff(x: Entry<Path>, paths: seq<Path>)
    ensures IsRecovered(x, CommonPathPrefix(paths), Alike(ShownCells(paths))) <==> Decoded(paths, x.file) == x.file
  {
    hide DecodeFile;
    hide Render;
    hide StripPrefixDisplay;
    hide CommonPathPrefix;
    hide Alike;
    hide ShownCells;
  }

  // ----- The order of the hash map -----

  lemma {:induction false} FilesOfNames(report: ImpactReport, names: seq<string>, p: Path)
    requires forall name :: name in names ==> name in report.targets
    ensures p in FilesOf(report, names)
       <==> exists name :: name in names && p in CollectPaths(report.targets[name])
    ensures |FilesOf(report, names)| >= |names|
  {
    if names != [] {
      InHeadOrTail(names);
      FilesOfNames(report, names[1..], p);
      FilesStep(report, names);
      var first, rest := CollectPaths(report.targets[names[0]]), FilesOf(report, names[1..]);
      hide *;
      assert p in first + rest <==> p in first || p in rest;
    }
  }

  lemma FilesStep(report: ImpactReport, names: seq<string>)
    requires names != [] && forall name :: name in names ==> name in report.targets
    ensures FilesOf(report, names) == CollectPaths(report.targets[names[0]]) + FilesOf(report, names[1..])
    ensures |CollectPaths(report.targets[names[0]])| >= 1
  {
    assert TreesOf(report, names)[1..] == TreesOf(report, names[1..]);
  }

  lemma PrefixIgnoresOrder(report: ImpactReport, a: seq<string>, b: seq<string>)
    requires Lists(a, report) && Lists(b, report)
    ensures CommonPathPrefix(FilesOf(report, a)) == CommonPathPrefix(FilesOf(report, b))
  {
    if |a| <= 1 || |b| <= 1 {
      ShortListings(a, b);
    } else {
      forall p ensures p in FilesOf(report, a) <==> p in FilesOf(report, b) {
        FilesOfNames(report, a, p);
        FilesOfNames(report, b, p);
      }
      FilesOfNames(report, a, []);
      FilesOfNames(report, b, []);
      CommonPrefixIgnoresOrder(FilesOf(report, a), FilesOf(report, b));
    }
  }

  lemma ShortListings(a: seq<string>, b: seq<string>)
    requires Distinct(a) && Distinct(b) && forall x :: x in a <==> x in b
    requires |a| <= 1 || |b| <= 1
    ensures a == b
  {
    if |a| <= 1 {
      ShortListing(a, b);
    } else {
      ShortListing(b, a);
    }
  }

  lemma ShortListing(a: seq<string>, b: seq<string>)
    requires Distinct(b) && |a| <= 1 && forall x :: x in a <==> x in b
    ensures a == b
  {
    var first, second := if |b| >= 1 then b[0] else "", if |b| >= 2 then b[1] else "";
    assert |b| >= 1 ==> first in b;
    assert |b| >= 2 ==> second in b;
    assert |a| == 1 ==> a[0] in a && a[0] in b;
  }

  /** The report prints the same whatever order its hash map lists the targets in. */
  lemma ImpactTextIgnoresOrder(report: ImpactReport, a: seq<string>, b: seq<string>)
    requires Lists(a, report) && Lists(b, report)
    ensures ImpactText(report, a) == ImpactText(report, b)
  {
    SortUnique(a, b);
    PrefixIgnoresOrder(report, a, b);
  }

  // ----- The round trip -----

  lemma SortedLists(report: ImpactReport, order: seq<string>)
    requires Lists(order, report)
    ensures Lists(Sort(order), report) && Ascending(Sort(order)) && Sort(Sort(order)) == Sort(order)
  {
    SortAscending(order);
    var s := Sort(order);
    forall i, j | 0 <= i < j < |s| ensures s[i] != s[j] {
      LessAsymmetric(s[i], s[j]);
    }
    SortOfAscending(s);
  }

  /**
   The parser recovers the total, the targets in ascending order and every target's tree - shape, order, files and
   all that is printed of a node - exactly unless a relative prefix of several files is one of them and the cells do not
   tell so.
   */
  lemma ImpactRoundTripIff(report: ImpactReport, order: seq<string>)
    requires Lists(order, report)
    ensures Lists(Sort(order), report)
    ensures ParseImpact(ImpactText(report, order)) == Some(ContentOf(report, order))
       <==> !IsMisread(FilesOf(report, Sort(order)))
  {
    SortedLists(report, order);
    var names := Sort(order);
    ImpactTextIgnoresOrder(report, order, names);
    SortedReportRoundTrip(report, names);
  }

  /** What a report is about: its total, and its targets in ascending order. */
  ghost function ContentOf(report: ImpactReport, order: seq<string>): ParsedReport
    requires Lists(order, report)
  {
    SortAscending(order);
    ParsedReport(report.totalTargets, TargetsOf(report, Sort(order)))
  }

  /** What the text says as it stands. */
  lemma ReportIsRead(report: ImpactReport, names: seq<string>)
    requires Lists(names, report) && Sort(names) == names
    ensures var prefix := CommonPathPrefix(FilesOf(report, names));
      var shown := MapTargets(TargetsOf(report, names), Displayed(prefix));
      && ReadReport(ImpactText(report, names)) == Some(ShownReport(report.totalTargets, Render(prefix), shown))
      && CellsOf(TargetLabels(shown)) == ShownCells(FilesOf(report, names))
      && AllPlain(FilesOf(report, names))
      && ((forall x :: x in TargetLabels(TargetsOf(report, names)) ==>
             WithFile(Render(prefix), Alike(CellsOf(TargetLabels(shown))))(Displayed(prefix)(x)) == x)
          <==> AllDecoded(FilesOf(report, names)))
  {
    hide ReadReport;
    hide CommonPathPrefix;
    hide HeaderText;
    hide TargetsText;
    hide WithFile;
    hide Displayed;
    hide MapTargets;
    hide TargetLabels;
    hide TargetsRows;
    hide AllPlain;
    hide AllDecoded;
    hide Alike;
    hide ShownCells;
    hide Render;
    var paths := FilesOf(report, names);
    var prefix := CommonPathPrefix(paths);
    var targets := TargetsOf(report, names);
    var shown := MapTargets(targets, Displayed(prefix));
    TargetsTextIsRows(report, names, prefix);
    ParsedText(report.totalTargets, prefix, shown);
    TargetLabelsOfMapped(targets, Displayed(prefix));
    LabelsOfTargets(report, names);
    FilesOfTrees(TreesOf(report, names));
    EntriesRecoveredIff(TargetLabels(targets), TargetLabels(shown), paths);
    FilesArePlain(TreesOf(report, names));
  }

  lemma SortedReportRoundTrip(report: ImpactReport, names: seq<string>)
    requires Lists(names, report) && Sort(names) == names
    ensures ParseImpact(ImpactText(report, names)) == Some(ParsedReport(report.totalTargets, TargetsOf(report, names)))
       <==> !IsMisread(FilesOf(report, names))
  {
    var prefix := CommonPathPrefix(FilesOf(report, names));
    var targets := TargetsOf(report, names);
    var shown := MapTargets(targets, Displayed(prefix));
    var g := WithFile(Render(prefix), Alike(CellsOf(TargetLabels(shown))));
    ReportIsRead(report, names);
    RelabelTargets(targets, Displayed(prefix), g);
    FilesDecodeIff(FilesOf(report, names));
    hide *;
    ParsedAs(ImpactText(report, names), report.totalTargets, Render(prefix), shown);
  }

  lemma ParsedAs(text: string, total: nat, prefix: string, shown: seq<Target<Entry<string>>>)
    requires ReadReport(text) == Some(ShownReport(total, prefix, shown))
    ensures ParseImpact(text)
         == Some(ParsedReport(total, MapTargets(shown, WithFile(prefix, Alike(CellsOf(TargetLabels(shown)))))))
  {
  }
}
