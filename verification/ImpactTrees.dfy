/** What the text of an impact report says of the caller trees themselves, field by field. */
module ImpactTrees {
  import opened Options
  import opened Ordering
  import opened CompactTsv
  import opened Paths
  import opened Roses
  import opened DisplayedFiles
  import opened ImpactOutput
  import opened ImpactRoundTrip
  import opened ImpactDetermined

  /** A cell shows an optional field; an absent one leaves it empty. */
  predicate Shows(cell: string, field: Option<string>) {
    match field
    case Some(text) => cell == text
    case None => cell == ""
  }

  /** The entries of a parsed tree are those of the caller tree, node by node. */
  ghost predicate Describes(r: Rose<Entry<Path>>, t: CallerTree)
    decreases t
  {
    && r.tag.file == Normalized(t.file) && r.tag.func == t.func
    && r.tag.callers == t.callerCount && r.tag.truncated == t.truncated
    && Shows(r.tag.note, t.note) && Shows(r.tag.receiver, t.receiverType)
    && |r.children| == |t.callers|
    && forall i :: 0 <= i < |t.callers| ==> Describes(r.children[i], t.callers[i])
  }

  lemma {:induction false} ContentDescribes(t: CallerTree)
    ensures Describes(Content(t), t)
    decreases t, 1
  {
    ContentsDescribe(t.callers);
  }

  lemma {:induction false} ContentsDescribe(ts: seq<CallerTree>)
    ensures |Contents(ts)| == |ts|
    ensures forall i :: 0 <= i < |ts| ==> Describes(Contents(ts)[i], ts[i])
    decreases ts, 0
  {
    if ts != [] {
      ContentDescribes(ts[0]);
      ContentsDescribe(ts[1..]);
    }
  }

  /** Equal, or both empty: an absent field and an empty one print alike. */
  predicate SameField(a: Option<string>, b: Option<string>) {
    a == b || (a in {None, Some("")} && b in {None, Some("")})
  }

  /** Trees that agree in everything a report prints. */
  ghost predicate AlikeTrees(t: CallerTree, u: CallerTree)
    decreases t
  {
    && Normalized(t.file) == Normalized(u.file) && t.func == u.func
    && t.callerCount == u.callerCount && t.truncated == u.truncated
    && SameField(t.note, u.note) && SameField(t.receiverType, u.receiverType)
    && |t.callers| == |u.callers|
    && forall i :: 0 <= i < |t.callers| ==> AlikeTrees(t.callers[i], u.callers[i])
  }

  lemma {:induction false} DescribedAlike(r: Rose<Entry<Path>>, t: CallerTree, u: CallerTree)
    requires Describes(r, t) && Describes(r, u)
    ensures AlikeTrees(t, u)
    decreases t
  {
    forall i | 0 <= i < |t.callers| ensures AlikeTrees(t.callers[i], u.callers[i]) {
      DescribedAlike(r.children[i], t.callers[i], u.callers[i]);
    }
  }

  lemma {:induction false} AlikeContent(t: CallerTree, u: CallerTree)
    requires AlikeTrees(t, u)
    ensures Content(t) == Content(u)
    decreases t, 1
  {
    AlikeContents(t.callers, u.callers);
  }

  lemma {:induction false} AlikeContents(ts: seq<CallerTree>, us: seq<CallerTree>)
    requires |ts| == |us| && forall i :: 0 <= i < |ts| ==> AlikeTrees(ts[i], us[i])
    ensures Contents(ts) == Contents(us)
    decreases ts, 0
  {
    if ts != [] {
      AlikeContent(ts[0], us[0]);
      AlikeContents(ts[1..], us[1..]);
    }
  }

  lemma {:induction false} TargetsAre(report: ImpactReport, names: seq<string>)
    requires forall name :: name in names ==> name in report.targets
    ensures |TargetsOf(report, names)| == |names|
    ensures forall i :: 0 <= i < |names| ==>
      TargetsOf(report, names)[i] == Target(names[i], Content(report.targets[names[i]]))
  {
    if names != [] {
      TargetsAre(report, names[1..]);
    }
  }

  /** A parsed report names the targets in order, each with a tree that describes its caller tree. */
  ghost predicate DescribesReport(p: ParsedReport, report: ImpactReport, names: seq<string>)
    requires Lists(names, report)
  {
    && p.totalTargets == report.totalTargets && |p.targets| == |names|
    && forall i :: 0 <= i < |names| ==>
         p.targets[i].name == names[i] && Describes(p.targets[i].tree, report.targets[names[i]])
  }

  lemma ContentDescribesReport(report: ImpactReport, order: seq<string>)
    requires Lists(order, report)
    ensures Lists(Sort(order), report) && DescribesReport(ContentOf(report, order), report, Sort(order))
  {
    SortedLists(report, order);
    ContentIs(report, order);
    hide *;
    DescribedTargets(report, Sort(order));
  }

  lemma ContentIs(report: ImpactReport, order: seq<string>)
    requires Lists(order, report) && Lists(Sort(order), report)
    ensures ContentOf(report, order) == ParsedReport(report.totalTargets, TargetsOf(report, Sort(order)))
  {
    hide TargetsOf;
  }

  lemma DescribedTargets(report: ImpactReport, names: seq<string>)
    requires Lists(names, report)
    ensures DescribesReport(ParsedReport(report.totalTargets, TargetsOf(report, names)), report, names)
  {
    TargetsAre(report, names);
    hide Describes;
    hide Content;
    hide TargetsOf;
    forall i | 0 <= i < |names| ensures Describes(Content(report.targets[names[i]]), report.targets[names[i]]) {
      ContentDescribes(report.targets[names[i]]);
    }
  }

  /** The parser gives every printed field of every caller back, in place - note and receiver included. */
  lemma CallersAreReadBack(report: ImpactReport, order: seq<string>)
    requires Lists(order, report)
    ensures Lists(Sort(order), report)
    ensures !IsMisread(FilesOf(report, Sort(order))) ==>
      var p := ParseImpact(ImpactText(report, order));
      p.Some? && DescribesReport(p.value, report, Sort(order))
  {
    ContentDescribesReport(report, order);
    ImpactRoundTripIff(report, order);
    hide *;
  }

  /** The reports list the same targets with trees alike. */
  ghost predicate AlikeReports(report: ImpactReport, other: ImpactReport) {
    && report.totalTargets == other.totalTargets
    && (forall name :: name in report.targets <==> name in other.targets)
    && forall name :: name in report.targets && name in other.targets ==>
         AlikeTrees(report.targets[name], other.targets[name])
  }

  lemma SameContentAlike(report: ImpactReport, order: seq<string>, other: ImpactReport, order': seq<string>)
    requires Lists(order, report) && Lists(order', other)
    requires ContentOf(report, order) == ContentOf(other, order')
    ensures AlikeReports(report, other)
  {
    var p, names, names' := ContentOf(report, order), Sort(order), Sort(order');
    ContentDescribesReport(report, order);
    ContentDescribesReport(other, order');
    hide *;
    SameNames(p, report, names, other, names');
    forall name | name in names ensures AlikeTrees(report.targets[name], other.targets[name]) {
      AlikeAt(p, report, other, names, name);
    }
    AlikeBy(report, other, names);
  }

  lemma SameNames(p: ParsedReport, report: ImpactReport, names: seq<string>, other: ImpactReport, names': seq<string>)
    requires Lists(names, report) && DescribesReport(p, report, names)
    requires Lists(names', other) && DescribesReport(p, other, names')
    ensures names == names' && report.totalTargets == other.totalTargets
    ensures forall name :: name in names ==> name in report.targets && name in other.targets
  {
    hide Describes;
    assert forall i :: 0 <= i < |names| ==> p.targets[i].name == names[i];
    assert forall i :: 0 <= i < |names'| ==> p.targets[i].name == names'[i];
  }

  lemma AlikeAt(p: ParsedReport, report: ImpactReport, other: ImpactReport, names: seq<string>, name: string)
    requires Lists(names, report) && DescribesReport(p, report, names) && name in names
    requires Lists(names, other) && DescribesReport(p, other, names)
    ensures AlikeTrees(report.targets[name], other.targets[name])
  {
    var i :| 0 <= i < |names| && names[i] == name;
    assert Describes(p.targets[i].tree, report.targets[names[i]]);
    DescribedAlike(p.targets[i].tree, report.targets[name], other.targets[name]);
    hide *;
  }

  lemma AlikeBy(report: ImpactReport, other: ImpactReport, names: seq<string>)
    requires Lists(names, report) && Lists(names, other) && report.totalTargets == other.totalTargets
    requires forall name :: name in names ==> AlikeTrees(report.targets[name], other.targets[name])
    ensures AlikeReports(report, other)
  {
    hide AlikeTrees;
  }

  lemma AlikeSameTargets(report: ImpactReport, other: ImpactReport, names: seq<string>)
    requires AlikeReports(report, other) && Lists(names, report)
    ensures Lists(names, other) && TargetsOf(report, names) == TargetsOf(other, names)
  {
    AlikeTargetsOf(report, other, names);
    hide AlikeTrees;
    hide TargetsOf;
  }

  lemma {:induction false} AlikeTargetsOf(report: ImpactReport, other: ImpactReport, names: seq<string>)
    requires AlikeReports(report, other) && forall name :: name in names ==> name in report.targets
    ensures forall name :: name in names ==> name in other.targets
    ensures TargetsOf(report, names) == TargetsOf(other, names)
  {
    hide AlikeTrees;
    hide Content;
    if names != [] {
      AlikeContent(report.targets[names[0]], other.targets[names[0]]);
      AlikeTargetsOf(report, other, names[1..]);
    }
  }

  /**
   A report whose text determines it prints like another exactly when both list the same targets, and their trees agree
   node by node in file, function, count, truncation, note and receiver - an absent note or receiver aside, which prints
   like an empty one.
   */
  lemma AlikeTextsIff(report: ImpactReport, order: seq<string>, other: ImpactReport, order': seq<string>)
    requires Lists(order, report) && Lists(order', other)
    requires Lists(Sort(order), report) && !IsAmbiguous(FilesOf(report, Sort(order)))
    ensures ImpactText(report, order) == ImpactText(other, order') <==> AlikeReports(report, other)
  {
    if AlikeReports(report, other) {
      AlikePrintAlike(report, order, other, order');
    }
    if ImpactText(report, order) == ImpactText(other, order') {
      TextDeterminesIff(report, order);
      Determines(report, order, other, order');
      SameContentAlike(report, order, other, order');
    }
    hide *;
  }

  lemma Determines(report: ImpactReport, order: seq<string>, other: ImpactReport, order': seq<string>)
    requires Lists(order, report) && Lists(order', other) && TextDetermines(report, order)
    requires ImpactText(other, order') == ImpactText(report, order)
    ensures ContentOf(other, order') == ContentOf(report, order)
  {
    hide ImpactText;
    hide ContentOf;
    hide Lists;
  }

  lemma AlikePrintAlike(report: ImpactReport, order: seq<string>, other: ImpactReport, order': seq<string>)
    requires Lists(order, report) && Lists(order', other) && AlikeReports(report, other)
    ensures ImpactText(report, order) == ImpactText(other, order')
  {
    var names := Sort(order);
    SameTotal(report, other);
    hide *;
    SortedLists(report, order);
    AlikeSameTargets(report, other, names);
    AlikePrinted(report, other, names);
    ImpactTextIgnoresOrder(report, order, names);
    ImpactTextIgnoresOrder(other, order', names);
  }

  lemma SameTotal(report: ImpactReport, other: ImpactReport)
    requires AlikeReports(report, other)
    ensures report.totalTargets == other.totalTargets
  {
    hide AlikeTrees;
  }

  lemma AlikePrinted(report: ImpactReport, other: ImpactReport, names: seq<string>)
    requires Lists(names, report) && Lists(names, other) && Sort(names) == names
    requires report.totalTargets == other.totalTargets && TargetsOf(report, names) == TargetsOf(other, names)
    ensures ImpactText(report, names) == ImpactText(other, names)
  {
    FilesOfContent(report, names);
    FilesOfContent(other, names);
    hide *;
    SamePrefixSameText(report, other, names);
  }

  // ----- The text, letter by letter -----

  /** The rows that open a report, the row that names a target, and the row of a caller. */
  lemma RowsLookLike(total: nat, prefix: Path, name: string, t: CallerTree, depth: nat)
    ensures HeaderText(total, prefix)
         == "@impact" + "\t" + ("1" + "\t" + (("targets=" + Decimal.Print(total)) + "\t" +
              (("prefix=" + CompactCell(Render(prefix))) + "\n")))
          + ("@columns" + "\t" + ("kind" + "\t" + ("depth" + "\t" + ("file" + "\t" + ("function" + "\t" +
              ("callers" + "\t" + ("truncated" + "\t" + ("note" + "\t" + ("receiver" + "\n")))))))))
    ensures TargetRowText(name)
         == "target" + "\t" + ("0" + "\t" + ("" + "\t" + (CompactCell(name) + "\t" + ("0" + "\t" +
              ("false" + "\t" + ("" + "\t" + ("" + "\n")))))))
    ensures exists note, receiver ::
      && Shows(note, t.note) && Shows(receiver, t.receiverType)
      && RowText(t, depth, prefix)
      == "caller" + "\t" + (Decimal.Print(depth) + "\t" +
              (CompactCell(StripPrefixDisplay(Normalized(t.file), prefix)) + "\t" + (CompactCell(t.func) + "\t" +
              (Decimal.Print(t.callerCount) + "\t" + ((if t.truncated then "true" else "false") + "\t" +
              (CompactCell(note) + "\t" + (CompactCell(receiver) + "\n")))))))
  {
    HeaderLooksLike(total, prefix);
    TargetLooksLike(name);
    CallerLooksLike(t, depth, prefix);
    assert Shows(OrEmpty(t.note), t.note) && Shows(OrEmpty(t.receiverType), t.receiverType);
    hide *;
  }

  lemma HeaderLooksLike(total: nat, prefix: Path)
    ensures HeaderText(total, prefix)
         == "@impact" + "\t" + ("1" + "\t" + (("targets=" + Decimal.Print(total)) + "\t" +
              (("prefix=" + CompactCell(Render(prefix))) + "\n")))
          + ("@columns" + "\t" + ("kind" + "\t" + ("depth" + "\t" + ("file" + "\t" + ("function" + "\t" +
              ("callers" + "\t" + ("truncated" + "\t" + ("note" + "\t" + ("receiver" + "\n")))))))))
  {
    hide CompactCell;
    hide Render;
    hide Decimal.Print;
  }

  lemma TargetLooksLike(name: string)
    ensures TargetRowText(name)
         == "target" + "\t" + ("0" + "\t" + ("" + "\t" + (CompactCell(name) + "\t" + ("0" + "\t" +
              ("false" + "\t" + ("" + "\t" + ("" + "\n")))))))
  {
    hide CompactCell;
  }

  lemma CallerLooksLike(t: CallerTree, depth: nat, prefix: Path)
    ensures RowText(t, depth, prefix)
         == "caller" + "\t" + (Decimal.Print(depth) + "\t" +
              (CompactCell(StripPrefixDisplay(Normalized(t.file), prefix)) + "\t" + (CompactCell(t.func) + "\t" +
              (Decimal.Print(t.callerCount) + "\t" + ((if t.truncated then "true" else "false") + "\t" +
              (CompactCell(OrEmpty(t.note)) + "\t" + (CompactCell(OrEmpty(t.receiverType)) + "\n")))))))
  {
    hide CompactCell;
    hide Decimal.Print;
    hide OrEmpty;
    hide StripPrefixDisplay;
    hide Normalized;
  }
}
