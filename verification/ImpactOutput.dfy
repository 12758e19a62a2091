/** The compact impact report: caller trees as depth-tagged rows, and the parser that gives the trees back. */
module ImpactOutput {
  import opened Sequences
  import opened Options
  import opened Ordering
  import opened CompactTsv
  import Decimal
  import opened Paths
  import opened DisplayedFiles
  import opened Roses

  /** A caller tree; the confidence is not part of the compact output. */
  datatype CallerTree = CallerTree(
    func: string,
    file: string,
    callerCount: nat,
    callers: seq<CallerTree>,
    truncated: bool,
    note: Option<string>,
    receiverType: Option<string>)

  datatype ImpactReport = ImpactReport(targets: map<string, CallerTree>, totalTargets: nat)

  /** What a row says about one caller, with its file as a path or as it is displayed. */
  datatype Entry<F> = Entry(file: F, func: string, callers: nat, truncated: bool, note: string, receiver: string)

  function OrEmpty(o: Option<string>): string {
    match o
    case None => ""
    case Some(s) => s
  }

  /** The content of a caller tree: shape, order, and per node what the report is about. */
  function Content(t: CallerTree): Rose<Entry<Path>>
    decreases t, 1
  {
    Rose(Entry(Normalized(t.file), t.func, t.callerCount, t.truncated, OrEmpty(t.note), OrEmpty(t.receiverType)),
         Contents(t.callers))
  }

  function Contents(ts: seq<CallerTree>): seq<Rose<Entry<Path>>>
    decreases ts, 0
  {
    if ts == [] then [] else [Content(ts[0])] + Contents(ts[1..])
  }

  // ----- Printing -----

  /** Normalised files in pre-order. */
  function CollectPaths(t: CallerTree): seq<Path>
    decreases t, 1
  {
    [Normalized(t.file)] + CollectAllPaths(t.callers)
  }

  function CollectAllPaths(ts: seq<CallerTree>): seq<Path>
    decreases ts, 0
  {
    if ts == [] then [] else CollectPaths(ts[0]) + CollectAllPaths(ts[1..])
  }

  /** Eight cells, as the row formats spell them out. */
  function EightCells(a: string, b: string, c: string, d: string, e: string, f: string, g: string, h: string): string {
    TabThen(a, TabThen(b, TabThen(c, TabThen(d, TabThen(e, TabThen(f, TabThen(g, EndRow(h))))))))
  }

  function RowText(t: CallerTree, depth: nat, prefix: Path): string {
    EightCells("caller", Decimal.Print(depth), CompactCell(StripPrefixDisplay(Normalized(t.file), prefix)),
               CompactCell(t.func), Decimal.Print(t.callerCount), Decimal.PrintBool(t.truncated),
               CompactCell(OrEmpty(t.note)), CompactCell(OrEmpty(t.receiverType)))
  }

  function CallerText(t: CallerTree, depth: nat, prefix: Path): string
    decreases t, 1
  {
    RowText(t, depth, prefix) + CallersText(t.callers, depth + 1, prefix)
  }

  function CallersText(ts: seq<CallerTree>, depth: nat, prefix: Path): string
    decreases ts, 0
  {
    if ts == [] then "" else CallerText(ts[0], depth, prefix) + CallersText(ts[1..], depth, prefix)
  }

  /** The callers of some targets, in the order given. */
  function TreesOf(report: ImpactReport, names: seq<string>): seq<CallerTree>
    requires forall name :: name in names ==> name in report.targets
  {
    if names == [] then [] else [report.targets[names[0]]] + TreesOf(report, names[1..])
  }

  function TargetRowText(name: string): string {
    EightCells("target", "0", "", CompactCell(name), "0", "false", "", "")
  }

  function TargetText(name: string, t: CallerTree, prefix: Path): string {
    TargetRowText(name) + CallerText(t, 0, prefix)
  }

  function TargetsText(report: ImpactReport, names: seq<string>, prefix: Path): string
    requires forall name :: name in names ==> name in report.targets
  {
    if names == [] then ""
    else TargetText(names[0], report.targets[names[0]], prefix) + TargetsText(report, names[1..], prefix)
  }

  /** `order` is the order in which the report's hash map happens to list its targets. */
  ghost predicate Lists(order: seq<string>, report: ImpactReport) {
    Distinct(order) && forall name :: name in order <==> name in report.targets
  }

  function HeaderText(total: nat, prefix: Path): string {
    TabThen("@impact", TabThen("1", TabThen("targets=" + Decimal.Print(total),
                                            EndRow("prefix=" + CompactCell(Render(prefix))))))
    + TabThen("@columns", EightCells("kind", "depth", "file", "function", "callers", "truncated", "note", "receiver"))
  }

  ghost function ImpactText(report: ImpactReport, order: seq<string>): string
    requires Lists(order, report)
  {
    SortAscending(order);
    var prefix := CommonPathPrefix(CollectAllPaths(TreesOf(report, order)));
    HeaderText(report.totalTargets, prefix) + TargetsText(report, Sort(order), prefix)
  }

  lemma {:induction false} CallersTextSnoc(ts: seq<CallerTree>, t: CallerTree, depth: nat, prefix: Path)
    ensures CallersText(ts + [t], depth, prefix) == CallersText(ts, depth, prefix) + CallerText(t, depth, prefix)
  {
    if ts == [] {
      CallersTextCons(t, [], depth, prefix);
      assert ts + [t] == [t] + [];
    } else {
      CallersTextSnoc(ts[1..], t, depth, prefix);
      CallersTextSnocStep(ts[0], ts[1..], t, depth, prefix);
      HeadAndTail(ts);
      hide *;
    }
  }

  lemma CallersTextSnocStep(first: CallerTree, ts: seq<CallerTree>, t: CallerTree, depth: nat, prefix: Path)
    requires CallersText(ts + [t], depth, prefix) == CallersText(ts, depth, prefix) + CallerText(t, depth, prefix)
    ensures CallersText([first] + ts + [t], depth, prefix)
         == CallersText([first] + ts, depth, prefix) + CallerText(t, depth, prefix)
  {
    hide *;
    Associative([first], ts, [t]);
    CallersTextCons(first, ts + [t], depth, prefix);
    CallersTextCons(first, ts, depth, prefix);
    Associative(CallerText(first, depth, prefix), CallersText(ts, depth, prefix), CallerText(t, depth, prefix));
  }

  lemma CallersTextCons(t: CallerTree, ts: seq<CallerTree>, depth: nat, prefix: Path)
    ensures CallersText([t] + ts, depth, prefix) == CallerText(t, depth, prefix) + CallersText(ts, depth, prefix)
    ensures CallersText([], depth, prefix) == ""
  {
    hide CallerText;
    assert ([t] + ts)[1..] == ts;
  }

  /** Appends the rows of one tree to the output. */
  method FormatCallerRows(output: string, tree: CallerTree, depth: nat, prefix: Path) returns (out: string)
    ensures out == output + CallerText(tree, depth, prefix)
    decreases tree
  {
    hide RowText;
    out := output + RowText(tree, depth, prefix);
    ghost var start := out;
    for i := 0 to |tree.callers|
      invariant out == start + CallersText(tree.callers[..i], depth + 1, prefix)
    {
      CallersTextSnoc(tree.callers[..i], tree.callers[i], depth + 1, prefix);
      assert tree.callers[..i + 1] == tree.callers[..i] + [tree.callers[i]];
      out := FormatCallerRows(out, tree.callers[i], depth + 1, prefix);
    }
    assert tree.callers[..|tree.callers|] == tree.callers;
  }

  /** The whole report, whatever order the targets are listed in. */
  method FormatImpact(report: ImpactReport, order: seq<string>) returns (out: string)
    requires Lists(order, report)
    ensures out == ImpactText(report, order)
  {
    var paths := CollectAllPaths(TreesOf(report, order));
    var prefix := FindCommonPathPrefix(paths);
    SortAscending(order);
    out := AppendTargets(HeaderText(report.totalTargets, prefix), report, Sort(order), prefix);
  }

  method AppendTargets(output: string, report: ImpactReport, names: seq<string>, prefix: Path) returns (out: string)
    requires forall name :: name in names ==> name in report.targets
    ensures out == output + TargetsText(report, names, prefix)
  {
    hide TargetRowText;
    hide CallerText;
    out := output;
    assert names[..0] == [];
    for i := 0 to |names|
      invariant out == output + TargetsText(report, names[..i], prefix)
    {
      var name := names[i];
      TargetsTextSnoc(report, names[..i], name, prefix);
      assert names[..i + 1] == names[..i] + [name];
      out := out + TargetRowText(name);
      out := FormatCallerRows(out, report.targets[name], 0, prefix);
    }
    assert names[..|names|] == names;
  }

  lemma {:induction false} TargetsTextSnoc(report: ImpactReport, names: seq<string>, name: string, prefix: Path)
    requires forall x :: x in names + [name] ==> x in report.targets
    ensures TargetsText(report, names + [name], prefix)
         == TargetsText(report, names, prefix) + (TargetRowText(name) + CallerText(report.targets[name], 0, prefix))
  {
    hide TargetRowText;
    hide CallerText;
    if names == [] {
      assert names + [name] == [name] && [name][1..] == [];
      assert TargetsText(report, [name], prefix)
          == TargetText(name, report.targets[name], prefix) + TargetsText(report, [], prefix);
    } else {
      assert (names + [name])[1..] == names[1..] + [name];
      TargetsTextSnoc(report, names[1..], name, prefix);
    }
  }

  // ----- Reading -----

  datatype Target<A> = Target(name: string, tree: Rose<A>)

  datatype ParsedReport = ParsedReport(totalTargets: nat, targets: seq<Target<Entry<Path>>>)

  function CallerRow(depth: nat, e: Entry<string>): Row {
    ["caller", Decimal.Print(depth), e.file, e.func, Decimal.Print(e.callers), Decimal.PrintBool(e.truncated), e.note,
     e.receiver]
  }

  function TargetRow(name: string): Row {
    ["target", "0", "", name, "0", "false", "", ""]
  }

  const COLUMNS: Row :=
    ["@columns", "kind", "depth", "file", "function", "callers", "truncated", "note", "receiver"]

  function HeaderRow(total: nat, prefix: string): Row {
    ["@impact", "1", "targets=" + Decimal.Print(total), "prefix=" + prefix]
  }

  function ReadCaller(row: Row): Option<(nat, Entry<string>)> {
    if |row| != 8 || row[0] != "caller" then None
    else
      match (Decimal.Read(row[1]), Decimal.Read(row[4]), Decimal.ReadBool(row[5]))
      case (Some(depth), Some(callers), Some(truncated)) =>
        Some((depth, Entry(row[2], row[3], callers, truncated, row[6], row[7])))
      case _ => None
  }

  /** The caller rows at the front. */
  function LeadingCallers(rows: seq<Row>): (r: seq<(nat, Entry<string>)>)
    ensures |r| <= |rows|
  {
    if rows == [] then []
    else
      match ReadCaller(rows[0])
      case None => []
      case Some(c) => [c] + LeadingCallers(rows[1..])
  }

  function ReadTargets(rows: seq<Row>): Option<seq<Target<Entry<string>>>>
    decreases |rows|
  {
    if rows == [] then Some([])
    else if |rows[0]| != 8 || rows[0] != TargetRow(rows[0][3]) then None
    else
      var callers := LeadingCallers(rows[1..]);
      var (trees, rest) := Rebuild(callers, 0);
      if |trees| != 1 || rest != [] then None
      else
        match ReadTargets(rows[1 + |callers|..])
        case None => None
        case Some(others) => Some([Target(rows[0][3], trees[0])] + others)
  }

  function ReadAfter(keyword: string, cell: string): Option<string> {
    if keyword <= cell then Some(cell[|keyword|..]) else None
  }

  function MapTargets<A, B>(ts: seq<Target<A>>, f: A -> B): seq<Target<B>> {
    if ts == [] then [] else [Target(ts[0].name, MapRose(ts[0].tree, f))] + MapTargets(ts[1..], f)
  }

  function TargetLabels<A>(ts: seq<Target<A>>): seq<A> {
    if ts == [] then [] else Labels(ts[0].tree) + TargetLabels(ts[1..])
  }

  function CellsOf(es: seq<Entry<string>>): (cells: seq<string>)
    ensures |cells| == |es| && forall i :: 0 <= i < |es| ==> cells[i] == es[i].file
  {
    if es == [] then [] else [es[0].file] + CellsOf(es[1..])
  }

  function WithFile(prefix: string, alike: bool): Entry<string> -> Entry<Path> {
    (e: Entry<string>) =>
      Entry(DecodeFile(prefix, alike, e.file), e.func, e.callers, e.truncated, e.note, e.receiver)
  }

  function Displayed(prefix: Path): Entry<Path> -> Entry<string> {
    (e: Entry<Path>) =>
      Entry(StripPrefixDisplay(e.file, prefix), e.func, e.callers, e.truncated, e.note, e.receiver)
  }

  /** What the text says as it stands: the header's total and prefix, and the targets with their cells. */
  datatype ShownReport = ShownReport(totalTargets: nat, prefix: string, targets: seq<Target<Entry<string>>>)

  function ReadReport(text: string): Option<ShownReport> {
    match ParseRows(text)
    case None => None
    case Some(rows) =>
      if |rows| < 2 || |rows[0]| != 4 || rows[0][0] != "@impact" || rows[0][1] != "1" || rows[1] != COLUMNS then None
      else
        match (ReadAfter("targets=", rows[0][2]), ReadAfter("prefix=", rows[0][3]), ReadTargets(rows[2..]))
        case (Some(total), Some(prefix), Some(targets)) => (
          match Decimal.Read(total)
          case None => None
          case Some(n) => Some(ShownReport(n, prefix, targets))
        )
        case _ => None
  }

  /** The prefix re-attached to every file. */
  function Attached(shown: ShownReport): ParsedReport {
    ParsedReport(shown.totalTargets,
                 MapTargets(shown.targets, WithFile(shown.prefix, Alike(CellsOf(TargetLabels(shown.targets))))))
  }

  /** The parser: header, column names, targets with their trees, and the prefix re-attached to every file. */
  function ParseImpact(text: string): Option<ParsedReport> {
    match ReadReport(text)
    case None => None
    case Some(shown) => Some(Attached(shown))
  }

  /** What there is to recover: the sorted targets with their trees. */
  function TargetsOf(report: ImpactReport, names: seq<string>): seq<Target<Entry<Path>>>
    requires forall name :: name in names ==> name in report.targets
  {
    if names == [] then []
    else [Target(names[0], Content(report.targets[names[0]]))] + TargetsOf(report, names[1..])
  }
}
