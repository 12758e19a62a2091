/** When the text of an impact report determines what the report is about. */
module ImpactDetermined {
  import opened Options
  import opened Ordering
  import opened Paths
  import opened Roses
  import opened DisplayedFiles
  import opened ImpactOutput
  import opened ImpactRoundTrip

  /** All reports that print this text are about the same. */
  ghost predicate TextDetermines(report: ImpactReport, order: seq<string>)
    requires Lists(order, report)
  {
    forall other: ImpactReport, order' | Lists(order', other) ::
      ImpactText(other, order') == ImpactText(report, order) ==> ContentOf(other, order') == ContentOf(report, order)
  }

  // ----- Texts that determine their reports -----

  lemma ShownFilesAreAlike(report: ImpactReport, names: seq<string>, other: ImpactReport, names': seq<string>)
    requires Lists(names, report) && Sort(names) == names && Lists(names', other) && Sort(names') == names'
    requires ImpactText(other, names') == ImpactText(report, names)
    ensures ShownAlike(FilesOf(report, names), FilesOf(other, names')) && AllPlain(FilesOf(report, names))
  {
    ReportIsRead(report, names);
    ReportIsRead(other, names');
    hide ReadReport;
    hide ImpactText;
    hide FilesOf;
    hide MapTargets;
    hide TargetLabels;
    hide TargetsOf;
    hide AllDecoded;
    hide AllPlain;
    hide CommonPathPrefix;
    hide WithFile;
    hide Displayed;
  }

  lemma UnambiguousAgree(report: ImpactReport, names: seq<string>, other: ImpactReport, names': seq<string>)
    requires Lists(names, report) && Sort(names) == names && Lists(names', other) && Sort(names') == names'
    requires ImpactText(other, names') == ImpactText(report, names)
    requires !IsAmbiguous(FilesOf(report, names))
    ensures ParsedReport(report.totalTargets, TargetsOf(report, names))
         == ParsedReport(other.totalTargets, TargetsOf(other, names'))
  {
    var paths, paths' := FilesOf(report, names), FilesOf(other, names');
    ShownFilesAreAlike(report, names, other, names');
    AmbiguousAlike(paths, paths');
    MisreadIsAmbiguous(paths);
    MisreadIsAmbiguous(paths');
    hide IsMisread;
    hide IsAmbiguous;
    SortedReportRoundTrip(report, names);
    SortedReportRoundTrip(other, names');
    hide *;
  }

  // ----- One file of a tree exchanged -----

  function SetFile(t: CallerTree, i: nat, file: string): CallerTree
    requires i < |CollectPaths(t)|
    decreases t, 1
  {
    if i == 0 then t.(file := file) else t.(callers := SetFiles(t.callers, i - 1, file))
  }

  /** The trees with the file of one node, counted in pre-order, exchanged. */
  function SetFiles(ts: seq<CallerTree>, i: nat, file: string): seq<CallerTree>
    requires i < |CollectAllPaths(ts)|
    decreases ts, 0
  {
    var n := |CollectPaths(ts[0])|;
    if i < n then [SetFile(ts[0], i, file)] + ts[1..] else [ts[0]] + SetFiles(ts[1..], i - n, file)
  }

  lemma PathsCons(t: CallerTree, ts: seq<CallerTree>)
    ensures CollectAllPaths([t] + ts) == CollectPaths(t) + CollectAllPaths(ts)
    ensures Contents([t] + ts) == [Content(t)] + Contents(ts)
  {
    assert ([t] + ts)[1..] == ts;
  }

  lemma SetFilesStep(ts: seq<CallerTree>, i: nat, file: string)
    requires i < |CollectAllPaths(ts)|
    ensures ts != [] && ts == [ts[0]] + ts[1..]
    ensures var n, rest := |CollectPaths(ts[0])|, ts[1..];
      SetFiles(ts, i, file) ==
        if i < n then [SetFile(ts[0], i, file)] + rest else [ts[0]] + SetFiles(rest, i - n, file)
  {
  }

  lemma UpdateOfTwo<T>(a: seq<T>, b: seq<T>, i: nat, x: T)
    requires i < |a| + |b|
    ensures (a + b)[i := x] == if i < |a| then a[i := x] + b else a + b[i - |a| := x]
  {
  }

  lemma {:induction false} SetFilePaths(t: CallerTree, i: nat, file: string)
    requires i < |CollectPaths(t)|
    ensures CollectPaths(SetFile(t, i, file)) == CollectPaths(t)[i := Normalized(file)]
    decreases t, 1
  {
    var p, own, below := Normalized(file), [Normalized(t.file)], CollectAllPaths(t.callers);
    hide Normalized;
    assert CollectPaths(t) == own + below;
    UpdateOfTwo(own, below, i, p);
    if i > 0 {
      SetFilesPaths(t.callers, i - 1, file);
    } else {
      assert own[0 := p] == [p];
    }
    hide CollectAllPaths;
    hide SetFiles;
  }

  lemma {:induction false} SetFilesPaths(ts: seq<CallerTree>, i: nat, file: string)
    requires i < |CollectAllPaths(ts)|
    ensures CollectAllPaths(SetFiles(ts, i, file)) == CollectAllPaths(ts)[i := Normalized(file)]
    ensures |SetFiles(ts, i, file)| == |ts|
    decreases ts, 0
  {
    SetFilesStep(ts, i, file);
    var t, rest := ts[0], ts[1..];
    var n := |CollectPaths(t)|;
    PathsCons(t, rest);
    UpdateOfTwo(CollectPaths(t), CollectAllPaths(rest), i, Normalized(file));
    if i < n {
      SetFilePaths(t, i, file);
      PathsCons(SetFile(t, i, file), rest);
    } else {
      SetFilesPaths(rest, i - n, file);
      PathsCons(t, SetFiles(rest, i - n, file));
    }
    hide *;
  }

  lemma {:induction false} SetFileShown(t: CallerTree, i: nat, file: string, prefix: Path)
    requires i < |CollectPaths(t)|
    requires StripPrefixDisplay(Normalized(file), prefix) == StripPrefixDisplay(CollectPaths(t)[i], prefix)
    ensures MapRose(Content(SetFile(t, i, file)), Displayed(prefix)) == MapRose(Content(t), Displayed(prefix))
    decreases t, 1
  {
    if i > 0 {
      SetFilesShown(t.callers, i - 1, file, prefix);
    }
  }

  lemma MapCons<A, B>(t: Rose<A>, ts: seq<Rose<A>>, f: A -> B)
    ensures MapAll([t] + ts, f) == [MapRose(t, f)] + MapAll(ts, f)
  {
    assert ([t] + ts)[1..] == ts;
  }

  lemma {:induction false} SetFilesShown(ts: seq<CallerTree>, i: nat, file: string, prefix: Path)
    requires i < |CollectAllPaths(ts)|
    requires StripPrefixDisplay(Normalized(file), prefix) == StripPrefixDisplay(CollectAllPaths(ts)[i], prefix)
    ensures MapAll(Contents(SetFiles(ts, i, file)), Displayed(prefix)) == MapAll(Contents(ts), Displayed(prefix))
    decreases ts, 0
  {
    SetFilesStep(ts, i, file);
    var t, rest := ts[0], ts[1..];
    var n := |CollectPaths(t)|;
    PathsCons(t, rest);
    MapCons(Content(t), Contents(rest), Displayed(prefix));
    if i < n {
      SetFileShown(t, i, file, prefix);
      var t' := SetFile(t, i, file);
      PathsCons(t', rest);
      MapCons(Content(t'), Contents(rest), Displayed(prefix));
    } else {
      SetFilesShown(rest, i - n, file, prefix);
      var rest' := SetFiles(rest, i - n, file);
      PathsCons(t, rest');
      MapCons(Content(t), Contents(rest'), Displayed(prefix));
    }
    hide *;
  }

  lemma ContentsStep(ts: seq<CallerTree>)
    requires ts != []
    ensures Contents(ts) != [] && Contents(ts)[0] == Content(ts[0]) && Contents(ts)[1..] == Contents(ts[1..])
  {
  }

  lemma MapStep<A, B>(ts: seq<Rose<A>>, f: A -> B)
    requires ts != []
    ensures MapAll(ts, f) == [MapRose(ts[0], f)] + MapAll(ts[1..], f)
  {
  }

  // ----- The report with other trees -----

  function WithTrees(targets: map<string, CallerTree>, names: seq<string>, trees: seq<CallerTree>)
    : map<string, CallerTree>
    requires |names| == |trees|
  {
    if names == [] then targets else WithTrees(targets, names[1..], trees[1..])[names[0] := trees[0]]
  }

  lemma {:induction false} WithTreesHas(targets: map<string, CallerTree>, names: seq<string>, trees: seq<CallerTree>)
    requires |names| == |trees| && Distinct(names)
    ensures var changed := WithTrees(targets, names, trees);
      && (forall name :: name in changed <==> name in targets || name in names)
      && (forall i :: 0 <= i < |names| ==> changed[names[i]] == trees[i])
  {
    if names != [] {
      WithTreesHas(targets, names[1..], trees[1..]);
      assert names == [names[0]] + names[1..];
      assert forall i :: 0 < i < |names| ==> names[i] == names[1..][i - 1] && trees[i] == trees[1..][i - 1];
    }
  }

  lemma {:induction false} TreesAre(report: ImpactReport, names: seq<string>, trees: seq<CallerTree>)
    requires |names| == |trees| && forall name :: name in names ==> name in report.targets
    requires forall i :: 0 <= i < |names| ==> report.targets[names[i]] == trees[i]
    ensures TreesOf(report, names) == trees
  {
    if names != [] {
      TreesAre(report, names[1..], trees[1..]);
      assert trees == [trees[0]] + trees[1..];
    }
  }

  /** What is shown of the targets depends on what is shown of their trees. */
  lemma {:induction false} ShownTargets(report: ImpactReport, other: ImpactReport, names: seq<string>, prefix: Path)
    requires forall name :: name in names ==> name in report.targets && name in other.targets
    requires MapAll(Contents(TreesOf(report, names)), Displayed(prefix))
          == MapAll(Contents(TreesOf(other, names)), Displayed(prefix))
    ensures MapTargets(TargetsOf(report, names), Displayed(prefix))
         == MapTargets(TargetsOf(other, names), Displayed(prefix))
  {
    if names != [] {
      var ts, us, rest := TreesOf(report, names), TreesOf(other, names), names[1..];
      assert ts[1..] == TreesOf(report, rest) && us[1..] == TreesOf(other, rest);
      ContentsStep(ts);
      ContentsStep(us);
      MapStep(Contents(ts), Displayed(prefix));
      MapStep(Contents(us), Displayed(prefix));
      TargetsStep(report, names, prefix);
      TargetsStep(other, names, prefix);
      assert ts[0] == report.targets[names[0]] && us[0] == other.targets[names[0]];
      hide *;
      ConsEqual(MapRose(Content(ts[0]), Displayed(prefix)), MapAll(Contents(ts[1..]), Displayed(prefix)),
                MapRose(Content(us[0]), Displayed(prefix)), MapAll(Contents(us[1..]), Displayed(prefix)));
      ShownTargets(report, other, rest, prefix);
    }
  }

  lemma ConsEqual<T>(x: T, a: seq<T>, y: T, b: seq<T>)
    requires [x] + a == [y] + b
    ensures x == y && a == b
  {
    assert x == ([x] + a)[0] && y == ([y] + b)[0];
    assert a == ([x] + a)[1..] && b == ([y] + b)[1..];
  }

  lemma TargetsStep(report: ImpactReport, names: seq<string>, prefix: Path)
    requires names != [] && forall name :: name in names ==> name in report.targets
    ensures MapTargets(TargetsOf(report, names), Displayed(prefix))
         == [Target(names[0], MapRose(Content(report.targets[names[0]]), Displayed(prefix)))]
          + MapTargets(TargetsOf(report, names[1..]), Displayed(prefix))
  {
    assert TargetsOf(report, names)[1..] == TargetsOf(report, names[1..]);
  }

  // ----- Texts that do not determine their reports -----

  /** Another report with the same targets and one file exchanged. */
  lemma ExchangedReport(report: ImpactReport, names: seq<string>, i: nat, file: Path, prefix: Path)
    returns (other: ImpactReport)
    requires Lists(names, report) && i < |FilesOf(report, names)| && Plain(file)
    requires StripPrefixDisplay(file, prefix) == StripPrefixDisplay(FilesOf(report, names)[i], prefix)
    ensures other.totalTargets == report.totalTargets && Lists(names, other)
    ensures FilesOf(other, names) == FilesOf(report, names)[i := file]
    ensures MapTargets(TargetsOf(other, names), Displayed(prefix))
         == MapTargets(TargetsOf(report, names), Displayed(prefix))
  {
    RenderIsReadable(file);
    var trees := TreesOf(report, names);
    var trees' := SetFiles(trees, i, Render(file));
    SetFilesPaths(trees, i, Render(file));
    SetFilesShown(trees, i, Render(file), prefix);
    TreesCount(report, names);
    other := report.(targets := WithTrees(report.targets, names, trees'));
    HasTrees(report, names, trees', other);
    assert CollectAllPaths(TreesOf(other, names)) == FilesOf(other, names);
    hide *;
    ShownTargets(other, report, names, prefix);
  }

  lemma HasTrees(report: ImpactReport, names: seq<string>, trees: seq<CallerTree>, other: ImpactReport)
    requires Lists(names, report) && |names| == |trees|
    requires other == report.(targets := WithTrees(report.targets, names, trees))
    ensures other.totalTargets == report.totalTargets && Lists(names, other) && TreesOf(other, names) == trees
  {
    WithTreesHas(report.targets, names, trees);
    TreesAre(other, names, trees);
    hide WithTrees;
  }

  lemma {:induction false} TreesCount(report: ImpactReport, names: seq<string>)
    requires forall name :: name in names ==> name in report.targets
    ensures |TreesOf(report, names)| == |names|
  {
    if names != [] {
      TreesCount(report, names[1..]);
    }
  }

  lemma SamePrefixSameText(report: ImpactReport, other: ImpactReport, names: seq<string>)
    requires Lists(names, report) && Lists(names, other) && Sort(names) == names
    requires other.totalTargets == report.totalTargets
    requires CommonPathPrefix(FilesOf(report, names)) == CommonPathPrefix(FilesOf(other, names))
    requires var prefix := CommonPathPrefix(FilesOf(report, names));
      MapTargets(TargetsOf(other, names), Displayed(prefix)) == MapTargets(TargetsOf(report, names), Displayed(prefix))
    ensures ImpactText(other, names) == ImpactText(report, names)
  {
    var prefix := CommonPathPrefix(FilesOf(report, names));
    TargetsTextIsRows(report, names, prefix);
    TargetsTextIsRows(other, names, prefix);
    hide CommonPathPrefix;
    hide HeaderText;
    hide TargetsText;
    hide MapTargets;
    hide TargetsOf;
  }

  lemma FilesOfContent(report: ImpactReport, names: seq<string>)
    requires forall name :: name in names ==> name in report.targets
    ensures FilesOf(report, names) == FilesIn(TargetLabels(TargetsOf(report, names)))
  {
    LabelsOfTargets(report, names);
    FilesOfTrees(TreesOf(report, names));
  }

  lemma AmbiguousTextDoesNotDetermine(report: ImpactReport, order: seq<string>)
    requires Lists(order, report)
    requires Lists(Sort(order), report) && IsAmbiguous(FilesOf(report, Sort(order)))
    ensures !TextDetermines(report, order)
  {
    var names := Sort(order);
    SortedLists(report, order);
    var other := UndeterminedSorted(report, names);
    ImpactTextIgnoresOrder(report, order, names);
    hide ImpactText;
    hide TargetsOf;
    assert ContentOf(other, names) != ContentOf(report, order);
  }

  lemma UndeterminedSorted(report: ImpactReport, names: seq<string>) returns (other: ImpactReport)
    requires Lists(names, report) && Sort(names) == names && IsAmbiguous(FilesOf(report, names))
    ensures Lists(names, other) && ImpactText(other, names) == ImpactText(report, names)
    ensures TargetsOf(other, names) != TargetsOf(report, names)
  {
    var paths := FilesOf(report, names);
    FilesArePlain(TreesOf(report, names));
    var i, file := AmbiguousExchange(paths);
    var prefix := CommonPathPrefix(paths);
    SamePrefix(paths, paths[i := file]);
    other := ExchangedReport(report, names, i, file, prefix);
    FilesOfContent(report, names);
    FilesOfContent(other, names);
    hide *;
    SamePrefixSameText(report, other, names);
  }

  /** A text determines what its report is about exactly when no file of it is ambiguous. */
  lemma TextDeterminesIff(report: ImpactReport, order: seq<string>)
    requires Lists(order, report)
    ensures Lists(Sort(order), report)
    ensures TextDetermines(report, order) <==> !IsAmbiguous(FilesOf(report, Sort(order)))
  {
    SortedLists(report, order);
    if IsAmbiguous(FilesOf(report, Sort(order))) {
      AmbiguousTextDoesNotDetermine(report, order);
    } else {
      hide ImpactText;
      hide IsAmbiguous;
      forall other: ImpactReport, order'
        | Lists(order', other) && ImpactText(other, order') == ImpactText(report, order)
        ensures ContentOf(other, order') == ContentOf(report, order)
      {
        SortedLists(other, order');
        ImpactTextIgnoresOrder(report, order, Sort(order));
        ImpactTextIgnoresOrder(other, order', Sort(order'));
        UnambiguousAgree(report, Sort(order), other, Sort(order'));
      }
    }
  }

  /** The parser reads every text that determines its report. */
  lemma DeterminedTextsAreRead(report: ImpactReport, order: seq<string>)
    requires Lists(order, report) && TextDetermines(report, order)
    ensures ParseImpact(ImpactText(report, order)) == Some(ContentOf(report, order))
  {
    TextDeterminesIff(report, order);
    MisreadIsAmbiguous(FilesOf(report, Sort(order)));
    ImpactRoundTripIff(report, order);
    hide *;
  }
}
