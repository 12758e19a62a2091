/**
 When a member list with comments is read back, and what is left of it otherwise. Only comments that read as nothing of
 their own let a condition be exact: others may stand in for the members they take.
 */
module CargoComments {
  import opened Sequences
  import opened Options
  import opened Splitting
  import opened Trimming
  import opened CargoWorkspace
  import opened CargoLists

  // ----- When a list is read back -----

  /** What stands before a member reads as nothing of its own; its last piece may join the member. */
  ghost predicate QuietBefore(s: string) {
    AllDropped(if ']' in s then Split(Front(s), ',') else PiecesBefore(s))
  }

  /** What stands behind the last member reads as nothing of its own; without a comma its first piece joins it. */
  ghost predicate QuietAfter(s: string, comma: bool) {
    AllDropped(if comma then Split(Front(s), ',') else PiecesAfter(Front(s)))
  }

  /** No piece of a comment, between its commas, reads as a pattern. */
  ghost predicate Quiet(first: Gap, entries: seq<Entry>, comma: bool)
    decreases |entries|
  {
    if entries == [] then QuietAfter(GapText(first), true)
    else
      && QuietBefore(GapText(first))
      && if |entries| == 1 && !comma then QuietAfter(GapText(entries[0].gap), false)
         else Quiet(entries[0].gap, entries[1..], comma)
  }

  /** No bracket closes the list, and only space stands between the last comma and the next member. */
  predicate LeadsOn(s: string) {
    ']' !in s && All(LastPiece(s), SPACE)
  }

  /** Only space stands between the last member and whatever comes first of a comma, a bracket and the end. */
  predicate EndsWell(s: string) {
    All(FirstPiece(Front(s)), SPACE)
  }

  /** No comment joins a member, or cuts one off. */
  predicate Undisturbed(first: Gap, entries: seq<Entry>, comma: bool)
    decreases |entries|
  {
    entries == [] ||
    (LeadsOn(GapText(first)) &&
     if |entries| == 1 && !comma then EndsWell(GapText(entries[0].gap))
     else Undisturbed(entries[0].gap, entries[1..], comma))
  }

  /** The character occurs in no comment. */
  ghost predicate Lacks(g: Gap, c: char) {
    && (g.behind.Some? ==> c !in g.behind.value)
    && forall i :: 0 <= i < |g.below| && g.below[i].Some? ==> c !in g.below[i].value
  }

  ghost predicate NoCommas(first: Gap, entries: seq<Entry>) {
    Lacks(first, ',') && forall i :: 0 <= i < |entries| ==> Lacks(entries[i].gap, ',')
  }

  lemma {:induction false} EndPieces(s: string)
    ensures FirstPiece(s) == [] || (s != [] && FirstPiece(s)[0] == s[0])
    ensures LastPiece(s) == [] || (s != [] && LastPiece(s)[|LastPiece(s)| - 1] == s[|s| - 1])
  {
    if s != [] {
      EndPieces(s[1..]);
    }
  }

  /** A gap starts and ends with space, and so do the pieces next to the members. */
  lemma GapEdges(g: Gap)
    ensures var u, v := LastPiece(GapText(g)), FirstPiece(Front(GapText(g)));
      (u == [] || IsSpace(u[|u| - 1])) && (v == [] || IsSpace(v[0]))
  {
    var s := GapText(g);
    GapSpace(g);
    EndPieces(s);
    FrontStep(s);
    EndPieces(Front(s));
    hide GapText;
    hide FirstPiece;
    hide LastPiece;
  }

  lemma GapSpace(g: Gap)
    ensures var s := GapText(g); s != [] && IsSpace(s[0]) && IsSpace(s[|s| - 1])
  {
    BelowEnds(g.below);
    assert (BehindText(g.behind) + "\n")[0] == if g.behind.Some? then ' ' else '\n';
    hide BelowText;
  }

  lemma {:induction false} BelowEnds(texts: seq<Option<string>>)
    ensures var s := BelowText(texts); s == [] || s[|s| - 1] == '\n'
  {
    if texts != [] {
      BelowEnds(texts[1..]);
    }
  }

  lemma {:induction false} BelowKeepsOut(texts: seq<Option<string>>, c: char)
    requires c != '#' && c != '\n'
    requires forall i :: 0 <= i < |texts| && texts[i].Some? ==> c !in texts[i].value
    ensures c !in BelowText(texts)
  {
    if texts != [] {
      BelowKeepsOut(texts[1..], c);
    }
  }

  lemma GapKeepsOut(g: Gap, c: char)
    requires c != '#' && !IsSpace(c) && Lacks(g, c)
    ensures c !in GapText(g)
  {
    BelowKeepsOut(g.below, c);
    hide BelowText;
  }

  predicate AnyRemark(texts: seq<Option<string>>) {
    exists i :: 0 <= i < |texts| && texts[i].Some?
  }

  predicate HasRemark(g: Gap) {
    g.behind.Some? || AnyRemark(g.below)
  }

  /** Text whose first visible character opens a comment. */
  predicate IsRemarked(s: string) {
    TrimStart(s, SPACE) != [] && TrimStart(s, SPACE)[0] == '#'
  }

  lemma RemarkedIsNotBlank(s: string)
    ensures All(s, SPACE) ==> !IsRemarked(s)
  {
    if All(s, SPACE) {
      TrimStartDrops(s, [], SPACE);
      assert s + [] == s;
    }
  }

  lemma RemarkedBehind(u: string, s: string)
    requires All(u, SPACE)
    ensures IsRemarked(u + s) <==> IsRemarked(s)
    ensures All(u + s, SPACE) <==> All(s, SPACE)
  {
    TrimStartDrops(u, s, SPACE);
    assert forall i :: 0 <= i < |s| ==> (u + s)[|u| + i] == s[i];
  }

  lemma TailIsRemarked(text: string, x: string)
    ensures IsRemarked(Tail(text) + x)
  {
    TailStarts(text);
    assert (Tail(text) + x)[0] == '#';
    hide Tail;
  }

  lemma AnyRemarkStep(texts: seq<Option<string>>)
    requires texts != []
    ensures AnyRemark(texts) <==> texts[0].Some? || AnyRemark(texts[1..])
  {
    assert forall i :: 0 <= i < |texts[1..]| ==> texts[1..][i] == texts[i + 1];
    assert forall i :: 0 < i < |texts| ==> texts[i] == texts[1..][i - 1];
  }

  lemma {:induction false} BelowStarts(texts: seq<Option<string>>)
    ensures if AnyRemark(texts) then IsRemarked(BelowText(texts)) else All(BelowText(texts), SPACE)
  {
    if texts != [] {
      var rest := BelowText(texts[1..]);
      AnyRemarkStep(texts);
      assert BelowText(texts) == RemarkText(texts[0]) + "\n" + rest;
      BelowStep(texts[0], rest);
      hide *;
      BelowStarts(texts[1..]);
    }
  }

  lemma BelowStep(text: Option<string>, rest: string)
    ensures text.Some? ==> IsRemarked(RemarkText(text) + "\n" + rest)
    ensures text.None? ==>
      && (IsRemarked(RemarkText(text) + "\n" + rest) <==> IsRemarked(rest))
      && (All(RemarkText(text) + "\n" + rest, SPACE) <==> All(rest, SPACE))
  {
    if text.Some? {
      TailIsRemarked(text.value, "\n" + rest);
      Associative(Tail(text.value), "\n", rest);
    } else {
      RemarkedBehind("\n", rest);
      assert "" + "\n" + rest == "\n" + rest;
    }
    hide Tail;
    hide IsRemarked;
    hide All;
  }

  lemma BehindStep(behind: Option<string>, below: string)
    ensures var s := BehindText(behind) + "\n" + below;
      && s != [] && IsSpace(s[0])
      && (behind.Some? ==> IsRemarked(s))
      && (behind.None? ==> (IsRemarked(s) <==> IsRemarked(below)) && (All(s, SPACE) <==> All(below, SPACE)))
  {
    assert BehindText(behind) == if behind.Some? then " " + Tail(behind.value) else "";
    assert All(" ", SPACE) && All("\n", SPACE) && IsSpace(' ') && IsSpace('\n');
    hide *;
    if behind.Some? {
      var comment := Tail(behind.value) + ("\n" + below);
      TailIsRemarked(behind.value, "\n" + below);
      RemarkedBehind(" ", comment);
      Associative(" ", Tail(behind.value), "\n");
      Associative(" ", Tail(behind.value) + "\n", below);
      Associative(Tail(behind.value), "\n", below);
      StartsWith(' ', comment);
    } else {
      RemarkedBehind("\n", below);
      StartsWith('\n', below);
    }
  }

  lemma StartsWith(c: char, s: string)
    ensures [c] + s != [] && ([c] + s)[0] == c
    ensures "" + [c] + s == [c] + s
  {
  }

  /** The text of a gap is blank without comments, and otherwise starts with one. */
  lemma GapStarts(g: Gap)
    ensures var s := GapText(g);
      && (All(s, SPACE) <==> !HasRemark(g))
      && (IsRemarked(s) <==> HasRemark(g))
      && s != [] && IsSpace(s[0])
  {
    var s := GapText(g);
    BelowStarts(g.below);
    BehindStep(g.behind, BelowText(g.below));
    RemarkedIsNotBlank(s);
    RemarkedIsNotBlank(BelowText(g.below));
    assert s == BehindText(g.behind) + "\n" + BelowText(g.below);
    assert HasRemark(g) <==> g.behind.Some? || AnyRemark(g.below);
    hide *;
  }

  /** The hash sign that starts a text is kept up to the first bracket. */
  lemma {:induction false} FrontIsRemarked(s: string)
    requires IsRemarked(s)
    ensures '#' in s && '#' in Front(s)
  {
    FrontStep(s);
    if IsSpace(s[0]) {
      FrontIsRemarked(s[1..]);
    }
  }

  lemma FrontOfBlank(s: string)
    requires All(s, SPACE)
    ensures Front(s) == s
  {
    FrontIs(s);
  }

  lemma BlankOrHashGap(g: Gap)
    ensures BlankOrHash(GapText(g)) && BlankOrHash(Front(GapText(g)))
  {
    var s := GapText(g);
    GapStarts(g);
    if HasRemark(g) {
      FrontIsRemarked(s);
    } else {
      FrontOfBlank(s);
    }
    hide GapText;
  }

  lemma CommaFreePieces(g: Gap)
    requires Lacks(g, ',')
    ensures BlankOrHash(LastPiece(GapText(g))) && BlankOrHash(FirstPiece(Front(GapText(g))))
  {
    GapKeepsOut(g, ',');
    BlankOrHashGap(g);
    UpToIsPrefix(GapText(g));
    NoCommaSplits(GapText(g));
    NoCommaSplits(Front(GapText(g)));
    hide GapText;
    hide Front;
  }

  lemma {:induction false} UpToIsPrefix(s: string)
    ensures forall c :: c in Front(s) ==> c in s
  {
    if s != [] {
      UpToIsPrefix(s[1..]);
      FrontStep(s);
    }
  }

  /** A member with the text before it, as far as the list goes on. */
  lemma EntryRead(s: string, entries: seq<Entry>, comma: bool, quote: char)
    requires entries != [] && IsQuote(quote) && NoSeparator(NamesOf(entries))
    ensures ']' in s ==> Patterns(Front(s + EntriesText(entries, comma, quote))) == Patterns(Front(s))
    ensures var quoted, gap := Quoted(entries[0].name, quote), Front(GapText(entries[0].gap));
      ']' !in s && |entries| == 1 && !comma ==>
        Patterns(Front(s + EntriesText(entries, comma, quote)))
        == Kept(PiecesBefore(s)) + Kept([LastPiece(s) + quoted + FirstPiece(gap)]) + Kept(PiecesAfter(gap))
    ensures var quoted := Quoted(entries[0].name, quote);
      var rest := GapText(entries[0].gap) + EntriesText(entries[1..], comma, quote);
      ']' !in s && (|entries| > 1 || comma) ==>
        Patterns(Front(s + EntriesText(entries, comma, quote)))
        == Kept(PiecesBefore(s)) + Kept([LastPiece(s) + quoted]) + Patterns(Front(rest))
  {
    var quoted, gap := Quoted(entries[0].name, quote), GapText(entries[0].gap);
    var more := EntriesText(entries[1..], comma, quote);
    var comma', t := Comma(entries, comma), EntriesText(entries, comma, quote);
    assert t == quoted + comma' + gap + more;
    assert NamesOf(entries)[0] == entries[0].name;
    assert ',' !in quoted && ']' !in quoted;
    assert |entries| == 1 ==> more == [];
    FrontAppend(s, t);
    if ']' !in s {
      Grouped(quoted, comma', gap, more);
      FrontAppend(quoted, comma' + (gap + more));
      FrontAppend(comma', gap + more);
      if |entries| == 1 && !comma {
        BareRead(s, quoted, gap);
      } else {
        CommaRead(s, quoted, gap + more);
      }
    }
  }

  lemma Grouped(a: string, b: string, c: string, d: string)
    ensures a + b + c + d == a + (b + (c + d))
  {
  }

  lemma BareRead(s: string, quoted: string, gap: string)
    requires ',' !in quoted && ']' !in quoted
    ensures Patterns(s + (quoted + ("" + Front(gap + ""))))
         == Kept(PiecesBefore(s)) + Kept([LastPiece(s) + quoted + FirstPiece(Front(gap))])
          + Kept(PiecesAfter(Front(gap)))
  {
    assert gap + "" == gap && "" + Front(gap) == Front(gap);
    NameJoins(s, quoted, Front(gap));
    Associative(s, quoted, Front(gap));
    hide *;
  }

  lemma CommaRead(s: string, quoted: string, rest: string)
    requires ',' !in quoted
    ensures Patterns(s + (quoted + ("," + Front(rest))))
         == Kept(PiecesBefore(s)) + Kept([LastPiece(s) + quoted]) + Patterns(Front(rest))
  {
    NameJoins(s, quoted, "");
    NoCommaSplits("");
    assert Kept([]) == [];
    hide *;
    CommaSplits(s + quoted, Front(rest));
    Associative(s, quoted, "," + Front(rest));
    assert s + quoted + "" == s + quoted;
    assert LastPiece(s) + quoted + "" == LastPiece(s) + quoted;
    assert Kept(PiecesBefore(s)) + Kept([LastPiece(s) + quoted]) + []
        == Kept(PiecesBefore(s)) + Kept([LastPiece(s) + quoted]);
  }

  /** With quiet comments the names are read back exactly when they are plain and undisturbed. */
  lemma {:induction false} ReadBackIff(first: Gap, entries: seq<Entry>, comma: bool, quote: char)
    requires IsQuote(quote) && NoSeparator(NamesOf(entries)) && Quiet(first, entries, comma)
    requires ArePlain(NamesOf(entries), quote) || NoCommas(first, entries)
    ensures var r := Patterns(Front(GapText(first) + EntriesText(entries, comma, quote)));
      |r| <= |entries| &&
      (r == NamesOf(entries) <==> ArePlain(NamesOf(entries), quote) && Undisturbed(first, entries, comma))
    decreases |entries|
  {
    var s := GapText(first);
    if entries == [] {
      assert s + [] == s;
      DroppedAreNotKept(Split(Front(s), ','));
    } else {
      QuietStep(first, entries, comma);
      NamesStep(first, entries, quote);
      OneName(entries, quote);
      assert Patterns(Front(s)) == Kept(Split(Front(s), ','));
      hide *;
      EntryRead(s, entries, comma, quote);
      NothingKept();
      if ']' in s {
        DroppedAreNotKept(Split(Front(s), ','));
      } else {
        DroppedAreNotKept(PiecesBefore(s));
        EntryPieceIff(first, entries, quote);
        if |entries| == 1 && !comma {
          DroppedAreNotKept(PiecesAfter(Front(GapText(entries[0].gap))));
        } else {
          ReadBackIff(entries[0].gap, entries[1..], comma, quote);
          FirstAndRest(Kept([LastPiece(s) + Quoted(entries[0].name, quote)]),
                       Patterns(Front(GapText(entries[0].gap) + EntriesText(entries[1..], comma, quote))),
                       NamesOf(entries));
        }
      }
    }
  }

  lemma QuietStep(first: Gap, entries: seq<Entry>, comma: bool)
    requires entries != [] && Quiet(first, entries, comma)
    ensures var s, gap := GapText(first), entries[0].gap;
      && AllDropped(if ']' in s then Split(Front(s), ',') else PiecesBefore(s))
      && (Undisturbed(first, entries, comma) ==> ']' !in s)
      && (|entries| == 1 && !comma ==>
            && AllDropped(PiecesAfter(Front(GapText(gap))))
            && (Undisturbed(first, entries, comma) <==>
                  ']' !in s && All(LastPiece(s), SPACE) && All(FirstPiece(Front(GapText(gap))), SPACE)))
      && (|entries| > 1 || comma ==>
            && Quiet(gap, entries[1..], comma)
            && (Undisturbed(first, entries, comma) <==>
                  ']' !in s && All(LastPiece(s), SPACE) && Undisturbed(gap, entries[1..], comma)))
  {
    hide AllDropped;
    hide GapText;
    hide Front;
    hide All;
  }

  lemma NothingKept()
    ensures Kept([]) == []
    ensures forall a: seq<string> :: [] + a == a && a + [] == a
  {
  }

  lemma OneName(entries: seq<Entry>, quote: char)
    ensures |entries| == 1 ==> NamesOf(entries) == [entries[0].name]
    ensures |entries| == 1 ==> (ArePlain(NamesOf(entries), quote) <==> IsPlain(entries[0].name, quote))
  {
  }

  lemma NamesStep(first: Gap, entries: seq<Entry>, quote: char)
    requires entries != []
    ensures var names, rest := NamesOf(entries), NamesOf(entries[1..]);
      && names != [] && names[0] == entries[0].name && names[1..] == rest
      && (NoSeparator(names) ==> NoSeparator(rest))
      && (ArePlain(names, quote) <==> IsPlain(entries[0].name, quote) && ArePlain(rest, quote))
    ensures NoCommas(first, entries) ==> Lacks(entries[0].gap, ',') && NoCommas(entries[0].gap, entries[1..])
  {
  }

  lemma EntryPieceIff(first: Gap, entries: seq<Entry>, quote: char)
    requires entries != [] && IsQuote(quote) && NoSeparator(NamesOf(entries))
    requires ArePlain(NamesOf(entries), quote) || NoCommas(first, entries)
    ensures var u, name, v := LastPiece(GapText(first)), entries[0].name, FirstPiece(Front(GapText(entries[0].gap)));
      && (Kept([u + Quoted(name, quote)]) == [name] <==> All(u, SPACE) && IsPlain(name, quote))
      && (Kept([u + Quoted(name, quote) + v]) == [name] <==> All(u, SPACE) && All(v, SPACE) && IsPlain(name, quote))
      && |Kept([u + Quoted(name, quote)])| <= 1 && |Kept([u + Quoted(name, quote) + v])| <= 1
  {
    var u, name, v := LastPiece(GapText(first)), entries[0].name, FirstPiece(Front(GapText(entries[0].gap)));
    NamesStep(first, entries, quote);
    GapEdges(first);
    GapEdges(entries[0].gap);
    if NoCommas(first, entries) {
      CommaFreePieces(first);
      CommaFreePieces(entries[0].gap);
    }
    KeptOne(u + Quoted(name, quote));
    KeptOne(u + Quoted(name, quote) + v);
    hide *;
    PieceIff(u, name, quote, v);
    PieceIff(u, name, quote, "");
    assert u + Quoted(name, quote) + "" == u + Quoted(name, quote);
  }

  /** A manifest with a list over many lines. */
  function ListFile(before: seq<string>, between: seq<string>, list: seq<string>, after: seq<string>): string {
    Unlines(Manifest(before, between, list + after))
  }

  lemma {:induction false} RemarksAreLines(texts: seq<Option<string>>, indent: string)
    requires '\n' !in indent && forall i :: 0 <= i < |texts| && texts[i].Some? ==> '\n' !in texts[i].value
    ensures AreLines(Remarks(texts, indent))
  {
    if texts != [] {
      RemarksAreLines(texts[1..], indent);
    }
  }

  lemma {:induction false} EntriesAreLines(entries: seq<Entry>, comma: bool, indent: string, quote: char)
    requires IsList(Gap(None, []), entries) && '\n' !in indent && IsQuote(quote)
    ensures AreLines(EntryLines(entries, comma, indent, quote))
    decreases |entries|
  {
    if entries != [] {
      RemarksAreLines(entries[0].gap.below, indent);
      EntriesAreLines(entries[1..], comma, indent, quote);
      assert '\n' !in Behind(entries[0].gap.behind) && '\n' !in Comma(entries, comma);
      hide Remarks;
    }
  }

  lemma ListFitsLines(first: Gap, entries: seq<Entry>, comma: bool, indent: string, quote: char, closing: string)
    requires IsList(first, entries) && IsPadding(indent) && IsQuote(quote) && '\n' !in closing
    ensures AreLines(ManyLines(first, entries, comma, indent, quote, closing))
  {
    RemarksAreLines(first.below, indent);
    EntriesAreLines(entries, comma, indent, quote);
    hide Remarks;
    hide EntryLines;
  }

  /** What a file with a list over many lines is read as. */
  lemma ListFileIsRead(before: seq<string>, between: seq<string>, first: Gap, entries: seq<Entry>, comma: bool,
                       indent: string, quote: char, closing: string, after: seq<string>)
    requires Surrounds(before, between, after) && IsList(first, entries) && '\n' !in closing
    requires IsQuote(quote) && IsPadding(indent)
    ensures var list := ManyLines(first, entries, comma, indent, quote, closing);
      var r := Patterns(Front(GapText(first) + EntriesText(entries, comma, quote)));
      Members(ListFile(before, between, list, after)) == if r == [] then None else Some(r)
  {
    var list := ManyLines(first, entries, comma, indent, quote, closing);
    var lines := Manifest(before, between, list + after);
    ListFitsLines(first, entries, comma, indent, quote, closing);
    ManifestIsLines(before, between, list, after);
    FileIsReadByLines(lines);
    ReadManifest(before, between, list + after);
    ListIsRead(first, entries, comma, indent, quote, closing, after);
    hide Read;
    hide Patterns;
    hide ManyLines;
    hide Manifest;
    hide Lines;
  }

  /**
   A list over many lines whose comments do not read as patterns of their own is read back exactly when every name is
   plain and no comment joins a member or cuts one off. Names that are not plain are included while comments hold no
   commas.
   */
  lemma CommentedListRoundTripIff(before: seq<string>, between: seq<string>, first: Gap, entries: seq<Entry>,
                                  comma: bool, indent: string, quote: char, closing: string, after: seq<string>)
    requires Surrounds(before, between, after) && IsList(first, entries) && '\n' !in closing
    requires IsQuote(quote) && IsPadding(indent)
    requires Quiet(first, entries, comma) && (ArePlain(NamesOf(entries), quote) || NoCommas(first, entries))
    ensures var names, list := NamesOf(entries), ManyLines(first, entries, comma, indent, quote, closing);
      Members(ListFile(before, between, list, after)) == Some(names) <==>
        names != [] && ArePlain(names, quote) && Undisturbed(first, entries, comma)
  {
    var names, list := NamesOf(entries), ManyLines(first, entries, comma, indent, quote, closing);
    ListFileIsRead(before, between, first, entries, comma, indent, quote, closing, after);
    MembersArePatterns(ListFile(before, between, list, after));
    PlainHaveNoSeparator(names, quote);
    if NoSeparator(names) {
      ReadBackIff(first, entries, comma, quote);
    }
    hide *;
  }

  // ----- Comments without commas and brackets -----

  /** The comments hold no comma and no closing bracket. */
  ghost predicate IsFree(g: Gap) {
    Lacks(g, ',') && Lacks(g, ']')
  }

  ghost predicate AreFree(first: Gap, entries: seq<Entry>) {
    IsFree(first) && forall i :: 0 <= i < |entries| ==> IsFree(entries[i].gap)
  }

  /** The comments before a member, the first member's included. */
  function GapBefore(first: Gap, entries: seq<Entry>, i: nat): Gap
    requires i <= |entries|
  {
    if i == 0 then first else entries[i - 1].gap
  }

  /** No comment stands before a member inside the list, nor behind a last member without a comma. */
  ghost predicate NoRemarkInTheWay(first: Gap, entries: seq<Entry>, comma: bool) {
    && (forall i :: 0 <= i < |entries| ==> !HasRemark(GapBefore(first, entries, i)))
    && (entries != [] && !comma ==> !HasRemark(entries[|entries| - 1].gap))
  }

  lemma RemarkedIsDropped(s: string, x: string)
    requires IsRemarked(s)
    ensures IsDropped(s + x)
  {
    var p := s + x;
    RemarkedIsNotBlank(s);
    TrimStartBefore(s, x, SPACE);
    var a := TrimStart(p, SPACE);
    TrimKeepsHead(a, SPACE);
    var t := Trim(p, SPACE);
    assert TrimStart(a, SPACE) == a;
    TrimKeepsHead(t, DOUBLE_QUOTE);
    TrimKeepsHead(Trim(t, DOUBLE_QUOTE), SINGLE_QUOTE);
    TrimKeepsHead(Trim(Trim(t, DOUBLE_QUOTE), SINGLE_QUOTE), SPACE);
  }

  lemma BlankIsDropped(s: string)
    requires All(s, SPACE)
    ensures IsDropped(s)
  {
    TrimPadding(s, [], [], SPACE);
    assert s + [] + [] == s;
  }

  /** A gap without commas and brackets is one piece, blank or dropped as a comment. */
  lemma FreeGap(g: Gap)
    requires IsFree(g)
    ensures var s := GapText(g);
      && ']' !in s && Front(s) == s && LastPiece(s) == s == FirstPiece(s) && PiecesBefore(s) == [] == PiecesAfter(s)
      && Split(s, ',') == [s] && IsDropped(s)
      && (All(s, SPACE) <==> !HasRemark(g)) && (HasRemark(g) ==> IsRemarked(s))
  {
    var s := GapText(g);
    GapKeepsOut(g, ',');
    GapKeepsOut(g, ']');
    FrontIs(s);
    NoCommaSplits(s);
    SplitWithout(s, ',');
    FreeGapStarts(g);
    hide *;
  }

  lemma FreeGapStarts(g: Gap)
    ensures var s := GapText(g);
      (All(s, SPACE) <==> !HasRemark(g)) && (HasRemark(g) ==> IsRemarked(s)) && IsDropped(s)
  {
    var s := GapText(g);
    GapStarts(g);
    hide GapText;
    hide Clean;
    if HasRemark(g) {
      RemarkedIsDropped(s, []);
      assert s + [] == s;
    } else {
      BlankIsDropped(s);
    }
  }

  lemma FreeStep(first: Gap, entries: seq<Entry>, comma: bool)
    requires entries != [] && AreFree(first, entries)
    ensures AreFree(entries[0].gap, entries[1..]) && IsFree(entries[0].gap)
    ensures NoRemarkInTheWay(first, entries, comma) <==>
      && !HasRemark(first)
      && if |entries| == 1 && !comma then !HasRemark(entries[0].gap)
         else NoRemarkInTheWay(entries[0].gap, entries[1..], comma)
  {
    var gap, rest := entries[0].gap, entries[1..];
    assert forall i :: 0 < i < |entries| ==> GapBefore(first, entries, i) == GapBefore(gap, rest, i - 1);
    assert forall i :: 0 <= i < |rest| ==> GapBefore(gap, rest, i) == GapBefore(first, entries, i + 1);
    assert GapBefore(first, entries, 0) == first;
    hide HasRemark;
    hide IsFree;
  }

  lemma {:induction false} FreeIsQuiet(first: Gap, entries: seq<Entry>, comma: bool)
    requires AreFree(first, entries)
    ensures Quiet(first, entries, comma) && NoCommas(first, entries)
    ensures Undisturbed(first, entries, comma) <==> NoRemarkInTheWay(first, entries, comma)
    decreases |entries|
  {
    FreeGap(first);
    if entries != [] {
      FreeStep(first, entries, comma);
      FreeGap(entries[0].gap);
      if |entries| > 1 || comma {
        FreeIsQuiet(entries[0].gap, entries[1..], comma);
      }
      hide NoRemarkInTheWay;
      hide GapText;
      hide Split;
      hide Front;
      hide IsDropped;
    }
  }

  /**
   The members a file lists over many lines, with a comma behind the last one or without, and with comments anywhere,
   are read back exactly when every name is plain and no comment stands before a member or behind one without a comma.
   */
  lemma ManyLinesRoundTripIff(before: seq<string>, between: seq<string>, first: Gap, entries: seq<Entry>, comma: bool,
                              indent: string, quote: char, closing: string, after: seq<string>)
    requires Surrounds(before, between, after) && IsList(first, entries) && '\n' !in closing
    requires IsQuote(quote) && IsPadding(indent) && AreFree(first, entries)
    ensures var names, list := NamesOf(entries), ManyLines(first, entries, comma, indent, quote, closing);
      Members(ListFile(before, between, list, after)) == Some(names) <==>
        names != [] && ArePlain(names, quote) && NoRemarkInTheWay(first, entries, comma)
  {
    FreeIsQuiet(first, entries, comma);
    CommentedListRoundTripIff(before, between, first, entries, comma, indent, quote, closing, after);
    hide *;
  }

  // ----- What is left of a disturbed list -----

  /** A last member without a comma, read together with the comments behind it. */
  function Spoiled(e: Entry, quote: char): string {
    Clean(Quoted(e.name, quote) + GapText(e.gap))
  }

  /**
   The members that are read: those with no comment since the comma before them. A last member without a comma takes the
   comments behind it into its pattern.
   */
  function Survivors(first: Gap, entries: seq<Entry>, comma: bool, quote: char): seq<string>
    decreases |entries|
  {
    if entries == [] then []
    else if |entries| == 1 && !comma then
      if HasRemark(first) then []
      else if HasRemark(entries[0].gap) then [Spoiled(entries[0], quote)]
      else [entries[0].name]
    else (if HasRemark(first) then [] else [entries[0].name]) + Survivors(entries[0].gap, entries[1..], comma, quote)
  }

  /** A spoiled member is its name and more, whatever space stands before it. */
  lemma SpoiledIsLonger(u: string, e: Entry, quote: char)
    requires IsQuote(quote) && IsPlain(e.name, quote) && HasRemark(e.gap) && All(u, SPACE)
    ensures e.name < Spoiled(e, quote)
    ensures Kept([u + Quoted(e.name, quote) + GapText(e.gap)]) == [Spoiled(e, quote)]
  {
    var s, quoted := GapText(e.gap), Quoted(e.name, quote);
    GapIsNotBlank(e.gap);
    PlainStarts(e.name, quote);
    NothingIsBlank();
    SpoiledIs(e, quote);
    hide *;
    CleanBefore(u, e.name, quote, s);
    CleanBefore([], e.name, quote, s);
    NothingBefore(quoted, s);
    LongerStarts(u + quoted + s, e.name, CleanEnd([quote] + s));
    KeptOne(u + quoted + s);
  }

  lemma NothingBefore(a: string, b: string)
    ensures [] + a + b == a + b
  {
  }

  lemma PlainStarts(name: string, quote: char)
    ensures IsPlain(name, quote) ==> name != [] && name[0] != '#'
  {
  }

  lemma GapIsNotBlank(g: Gap)
    requires HasRemark(g)
    ensures var s := GapText(g); s != [] && IsSpace(s[0]) && !All(s, SPACE)
  {
    GapStarts(g);
    hide GapText;
  }

  /** With only space before a plain name, cleaning leaves the name and what is left of the text behind it. */
  lemma CleanBefore(u: string, name: string, quote: char, v: string)
    requires IsQuote(quote) && IsPlain(name, quote) && All(u, SPACE)
    requires v != [] && IsSpace(v[0]) && !All(v, SPACE)
    ensures Clean(u + Quoted(name, quote) + v) == name + CleanEnd([quote] + v) && CleanEnd([quote] + v) != []
  {
    assert u == [] || IsSpace(u[|u| - 1]);
    hide *;
    CleanAround(u, name, quote, v);
    CleanStartIff(u, quote);
    CleanEndIff(v, quote);
    assert [] + name == name;
  }

  lemma LongerStarts(piece: string, name: string, rest: string)
    requires Clean(piece) == name + rest && name != [] && name[0] != '#' && rest != []
    ensures !IsDropped(piece) && name < name + rest
  {
    assert (name + rest)[0] == name[0];
    hide Clean;
  }

  lemma SpoiledIs(e: Entry, quote: char)
    ensures Spoiled(e, quote) == Clean(Quoted(e.name, quote) + GapText(e.gap))
  {
    hide Clean;
  }

  lemma FreeEntryRead(first: Gap, e: Entry, quote: char)
    requires IsFree(first) && IsFree(e.gap) && IsQuote(quote) && IsPlain(e.name, quote)
    ensures var s, quoted, gap := GapText(first), Quoted(e.name, quote), GapText(e.gap);
      && Kept([s + quoted]) == (if HasRemark(first) then [] else [e.name])
      && Kept([s + quoted + gap])
         == if HasRemark(first) then [] else if HasRemark(e.gap) then [Spoiled(e, quote)] else [e.name]
  {
    var s, quoted, gap := GapText(first), Quoted(e.name, quote), GapText(e.gap);
    FreeGap(first);
    FreeGap(e.gap);
    GapEdges(first);
    GapEdges(e.gap);
    assert ',' !in e.name && ']' !in e.name;
    assert s + quoted + [] == s + quoted;
    hide *;
    if HasRemark(first) {
      KeptOne(s + quoted);
      KeptOne(s + quoted + gap);
      RemarkedIsDropped(s, quoted);
      RemarkedIsDropped(s, quoted + gap);
      Associative(s, quoted, gap);
    } else {
      PieceIff(s, e.name, quote, []);
      PieceIff(s, e.name, quote, gap);
      NothingIsBlank();
      if HasRemark(e.gap) {
        SpoiledIsLonger(s, e, quote);
      }
    }
  }

  lemma NothingIsBlank()
    ensures All([], SPACE)
  {
  }

  lemma {:induction false} SurvivorsRead(first: Gap, entries: seq<Entry>, comma: bool, quote: char)
    requires AreFree(first, entries) && IsQuote(quote) && ArePlain(NamesOf(entries), quote)
    ensures Patterns(Front(GapText(first) + EntriesText(entries, comma, quote)))
         == Survivors(first, entries, comma, quote)
    decreases |entries|
  {
    var s := GapText(first);
    if entries == [] {
      FreeGap(first);
      KeptOne(s);
      assert s + [] == s;
      hide GapText;
      hide Split;
      hide Front;
      hide IsDropped;
    } else {
      SurvivorsStep(first, entries, comma, quote);
      if |entries| > 1 || comma {
        NamesStep(first, entries, quote);
        FreeStep(first, entries, comma);
        hide *;
        SurvivorsRead(entries[0].gap, entries[1..], comma, quote);
      }
    }
  }

  lemma SurvivorsStep(first: Gap, entries: seq<Entry>, comma: bool, quote: char)
    requires entries != [] && AreFree(first, entries) && IsQuote(quote) && ArePlain(NamesOf(entries), quote)
    ensures var rest := GapText(entries[0].gap) + EntriesText(entries[1..], comma, quote);
      Patterns(Front(rest)) == Survivors(entries[0].gap, entries[1..], comma, quote) ||
      (|entries| == 1 && !comma) ==>
        Patterns(Front(GapText(first) + EntriesText(entries, comma, quote)))
        == Survivors(first, entries, comma, quote)
  {
    PlainHaveNoSeparator(NamesOf(entries), quote);
    NamesStep(first, entries, quote);
    FreeStep(first, entries, comma);
    hide *;
    FreeGap(first);
    FreeGap(entries[0].gap);
    EntryRead(GapText(first), entries, comma, quote);
    FreeEntryRead(first, entries[0], quote);
    NothingKept();
    SurvivorsUnfold(first, entries, comma, quote);
  }

  lemma SurvivorsUnfold(first: Gap, entries: seq<Entry>, comma: bool, quote: char)
    requires entries != []
    ensures Survivors(first, entries, comma, quote) ==
      if |entries| == 1 && !comma then
        if HasRemark(first) then []
        else if HasRemark(entries[0].gap) then [Spoiled(entries[0], quote)]
        else [entries[0].name]
      else (if HasRemark(first) then [] else [entries[0].name]) + Survivors(entries[0].gap, entries[1..], comma, quote)
  {
    hide HasRemark;
    hide Spoiled;
  }

  /** Of plain members exactly these are read, whatever the comments say. */
  lemma CommentsSwallowMembers(before: seq<string>, between: seq<string>, first: Gap, entries: seq<Entry>, comma: bool,
                               indent: string, quote: char, closing: string, after: seq<string>)
    requires Surrounds(before, between, after) && IsList(first, entries) && '\n' !in closing
    requires IsQuote(quote) && IsPadding(indent) && AreFree(first, entries) && ArePlain(NamesOf(entries), quote)
    ensures var list := ManyLines(first, entries, comma, indent, quote, closing);
      var survivors := Survivors(first, entries, comma, quote);
      Members(ListFile(before, between, list, after)) == if survivors == [] then None else Some(survivors)
  {
    ListFileIsRead(before, between, first, entries, comma, indent, quote, closing, after);
    SurvivorsRead(first, entries, comma, quote);
    hide *;
  }

  // ----- Lists of one or two members -----

  const NO_COMMENT: Gap := Gap(None, [])

  function Simple(first: Gap, entries: seq<Entry>, comma: bool): string {
    ListFile([], [], ManyLines(first, entries, comma, "", '\"', ""), [])
  }

  lemma SimpleIsRead(first: Gap, entries: seq<Entry>, comma: bool)
    requires IsList(first, entries) && AreFree(first, entries) && ArePlain(NamesOf(entries), '\"')
    ensures var survivors := Survivors(first, entries, comma, '\"');
      Members(Simple(first, entries, comma)) == if survivors == [] then None else Some(survivors)
  {
    CommentsSwallowMembers([], [], first, entries, comma, "", '\"', "", []);
    hide Members;
    hide Survivors;
    hide ManyLines;
    hide ListFile;
  }

  /** A comment behind a member's comma takes the next member with it. */
  lemma CommentSwallowsNextMember(a: string, b: string, comment: string, comma: bool)
    requires IsPlain(a, '\"') && IsPlain(b, '\"') && AreLines([a, b])
    requires IsFree(Gap(Some(comment), [])) && '\n' !in comment
    ensures var entries := [Entry(a, Gap(Some(comment), [])), Entry(b, NO_COMMENT)];
      Members(Simple(NO_COMMENT, entries, comma)) == Some([a])
  {
    var first, second := Entry(a, Gap(Some(comment), [])), Entry(b, NO_COMMENT);
    assert [a, b][0] == a && [a, b][1] == b;
    OfTwo(first, second, comma);
    assert IsList(NO_COMMENT, [first, second]) && AreFree(NO_COMMENT, [first, second]);
    assert ArePlain([a, b], '\"');
    hide *;
    SimpleIsRead(NO_COMMENT, [first, second], comma);
  }

  lemma OfTwo(first: Entry, second: Entry, comma: bool)
    requires HasRemark(first.gap)
    ensures NamesOf([first, second]) == [first.name, second.name]
    ensures Survivors(NO_COMMENT, [first, second], comma, '\"') == [first.name]
  {
    var entries, rest := [first, second], [second];
    assert entries[1..] == rest && rest[1..] == [];
    NamesStep(NO_COMMENT, entries, '\"');
    NamesStep(first.gap, rest, '\"');
    SurvivorsUnfold(NO_COMMENT, entries, comma, '\"');
    SurvivorsUnfold(first.gap, rest, comma, '\"');
    assert NamesOf(rest)[1..] == [] && Survivors(second.gap, [], comma, '\"') == [];
    assert !HasRemark(NO_COMMENT);
    hide *;
    HeadAndTail(NamesOf(entries));
    HeadAndTail(NamesOf(rest));
  }

  /** A comment on a line of its own hides the whole workspace if only one member follows it. */
  lemma CommentHidesTheWorkspace(b: string, comment: string, comma: bool)
    requires IsPlain(b, '\"') && '\n' !in b && IsFree(Gap(None, [Some(comment)])) && '\n' !in comment
    ensures Members(Simple(Gap(None, [Some(comment)]), [Entry(b, NO_COMMENT)], comma)) == None
  {
    var entries := [Entry(b, NO_COMMENT)];
    assert entries[1..] == [] && NamesOf(entries) == [b] + NamesOf([]);
    SimpleIsRead(Gap(None, [Some(comment)]), entries, comma);
    hide Members;
    hide Simple;
    hide IsPlain;
  }

  /** A comment behind a last member without a comma becomes part of its pattern. */
  lemma CommentSpoilsLastMember(b: string, comment: string)
    requires IsPlain(b, '\"') && '\n' !in b && IsFree(Gap(Some(comment), [])) && '\n' !in comment
    ensures var e := Entry(b, Gap(Some(comment), []));
      Members(Simple(NO_COMMENT, [e], false)) == Some([Spoiled(e, '\"')]) && b < Spoiled(e, '\"')
  {
    var e := Entry(b, Gap(Some(comment), []));
    assert [e][1..] == [] && NamesOf([e]) == [b] + NamesOf([]);
    SimpleIsRead(NO_COMMENT, [e], false);
    SpoiledIsLonger([], e, '\"');
    hide Members;
    hide Simple;
    hide IsPlain;
    hide Spoiled;
  }

  // ----- Comments that read as patterns -----

  lemma OnePiece(p: string, rest: string)
    requires ',' !in p
    ensures Patterns(p) == Kept([p]) && Patterns(p + ("," + rest)) == Kept([p]) + Patterns(rest)
  {
    SplitWithout(p, ',');
    CommaSplits(p, rest);
    hide Split;
  }

  /** A plain name is read without its quotes, too. */
  lemma BareName(u: string, name: string, v: string)
    requires IsPlain(name, '\"') && All(u, SPACE) && All(v, SPACE)
    ensures Kept([u + name + v]) == [name]
  {
    TrimPadding(u, name, v, SPACE);
    TrimUnpads(name, SPACE);
    TrimUnpads(name, DOUBLE_QUOTE);
    TrimUnpads(name, SINGLE_QUOTE);
    KeptOne(u + name + v);
    hide Trim;
  }

  lemma HashPiece(text: string, x: string)
    ensures Kept([" #" + text + x]) == []
  {
    var s := " #" + text;
    assert s == " " + ("#" + text);
    TrimStartDrops(" ", "#" + text, SPACE);
    assert ("#" + text)[0] == '#';
    RemarkedIsDropped(s, x);
    KeptOne(s + x);
    hide Clean;
  }

  lemma TailOfVisible(text: string)
    requires text != [] && !IsSpace(text[|text| - 1])
    ensures Tail(text) == "#" + text
  {
  }

  lemma ReadsAs(first: Gap, entries: seq<Entry>, text: string, names: seq<string>)
    requires IsList(first, entries) && GapText(first) + EntriesText(entries, true, '\"') == text
    requires ']' !in text && Patterns(text) == names != []
    ensures Members(Simple(first, entries, true)) == Some(names)
  {
    FrontIs(text);
    OneQuote();
    SimpleMeans(first, entries);
    hide *;
    ListFileIsRead([], [], first, entries, true, "", '\"', "", []);
  }

  lemma OneQuote()
    ensures IsQuote('\"') && IsPadding("") && Surrounds([], [], [])
  {
  }

  lemma SimpleMeans(first: Gap, entries: seq<Entry>)
    ensures Simple(first, entries, true)
         == ListFile([], [], ManyLines(first, entries, true, "", '\"', ""), [])
  {
    hide ListFile;
    hide ManyLines;
  }

  /** A member with its comma, in front of a blank or a comment. */
  lemma QuotedPiece(a: string, rest: string)
    requires IsPlain(a, '\"')
    ensures Patterns("\n" + Quoted(a, '\"') + ("," + rest)) == [a] + Patterns(rest)
  {
    var p := "\n" + Quoted(a, '\"');
    CleanRestoresIff("\n", a, '\"', "");
    assert p + "" == p && ',' !in p;
    OnePiece(p, rest);
    KeptOne(p);
    hide Kept;
    hide Patterns;
    hide Clean;
  }

  /** A comment with a comma in it, up to the comma. */
  lemma CommentPiece(x: string, rest: string)
    requires ',' !in x
    ensures Patterns(" #" + x + ("," + rest)) == Patterns(rest)
  {
    OnePiece(" #" + x, rest);
    HashPiece(x, "");
    assert " #" + x + "" == " #" + x;
    hide *;
  }

  /** A plain name without quotes, as a piece of its own. */
  lemma BarePiece(name: string, v: string, rest: string)
    requires IsPlain(name, '\"') && All(v, SPACE)
    ensures Patterns(" " + name + v) == [name]
    ensures Patterns(" " + name + v + ("," + rest)) == [name] + Patterns(rest)
  {
    BareName(" ", name, v);
    assert ',' !in " " + name + v;
    hide *;
    OnePiece(" " + name + v, rest);
  }

  /** What stands behind a comma in a comment behind the last member is read as a member of its own. */
  lemma CommentAddsPattern(a: string, x: string, b: string)
    requires IsPlain(a, '\"') && IsPlain(b, '\"') && ',' !in x && ']' !in x && AreLines([a, x, b])
    ensures Members(Simple(NO_COMMENT, [Entry(a, Gap(Some(x + ("," + (" " + b))), []))], true)) == Some([a, b])
  {
    AddedText(a, x, b);
    AddedFits(a, x, b);
    hide *;
    AddedPatterns(a, x, b);
    ReadsAs(NO_COMMENT, [Entry(a, Gap(Some(x + ("," + (" " + b))), []))],
            "\n" + Quoted(a, '\"') + ("," + (" #" + x + ("," + (" " + b + "\n")))), [a, b]);
  }

  lemma AddedPatterns(a: string, x: string, b: string)
    requires IsPlain(a, '\"') && IsPlain(b, '\"') && ',' !in x
    ensures Patterns("\n" + Quoted(a, '\"') + ("," + (" #" + x + ("," + (" " + b + "\n"))))) == [a, b]
  {
    assert All("\n", SPACE);
    hide *;
    QuotedPiece(a, " #" + x + ("," + (" " + b + "\n")));
    CommentPiece(x, " " + b + "\n");
    BarePiece(b, "\n", "");
    assert [a] + [b] == [a, b];
  }

  lemma AddedFits(a: string, x: string, b: string)
    requires IsPlain(a, '\"') && IsPlain(b, '\"') && ']' !in x && AreLines([a, x, b])
    ensures ']' !in "\n" + Quoted(a, '\"') + ("," + (" #" + x + ("," + (" " + b + "\n"))))
    ensures IsList(NO_COMMENT, [Entry(a, Gap(Some(x + ("," + (" " + b))), []))])
  {
    assert [a, x, b][0] == a && [a, x, b][1] == x && [a, x, b][2] == b;
    assert ']' !in " #" + x && ']' !in " " + b + "\n" && ']' !in "\n" + Quoted(a, '\"');
    assert '\n' !in x + ("," + (" " + b));
  }

  lemma AddedText(a: string, x: string, b: string)
    requires IsPlain(b, '\"')
    ensures GapText(NO_COMMENT) + EntriesText([Entry(a, Gap(Some(x + ("," + (" " + b))), []))], true, '\"')
         == "\n" + Quoted(a, '\"') + ("," + (" #" + x + ("," + (" " + b + "\n"))))
  {
    var comment := x + ("," + (" " + b));
    var entries := [Entry(a, Gap(Some(comment), []))];
    TailOfVisible(comment);
    assert entries[1..] == [];
    assert GapText(entries[0].gap) == " #" + x + ("," + (" " + b + "\n"));
  }

  /**
   By chance a comment may stand in for the member it takes: without quiet comments being read back says nothing about
   the comments.
   */
  lemma CommentMayStandIn(b: string)
    requires IsPlain(b, '\"') && '\n' !in b
    ensures var first := Gap(Some("," + (" " + b + ("," + " #"))), []);
      !Undisturbed(first, [Entry(b, NO_COMMENT)], true) &&
      Members(Simple(first, [Entry(b, NO_COMMENT)], true)) == Some([b])
  {
    var first, entries := Gap(Some("," + (" " + b + ("," + " #"))), []), [Entry(b, NO_COMMENT)];
    var spoiled := " #" + ("\n" + Quoted(b, '\"')) + ("," + "\n");
    var text := " #" + "" + ("," + (" " + b + ("," + spoiled)));
    StandInText(b);
    StandInFits(b);
    StandInDisturbs(b);
    KeptOne("\n");
    BlankIsDropped("\n");
    hide *;
    CommentPiece("", " " + b + ("," + spoiled));
    BarePiece(b, "", spoiled);
    assert " " + b + "" == " " + b;
    CommentPiece("\n" + Quoted(b, '\"'), "\n");
    OnePiece("\n", "");
    assert [b] + [] == [b];
    ReadsAs(first, entries, text, [b]);
  }

  lemma StandInFits(b: string)
    requires IsPlain(b, '\"') && '\n' !in b
    ensures ']' !in " #" + "" + ("," + (" " + b + ("," + (" #" + ("\n" + Quoted(b, '\"')) + ("," + "\n")))))
    ensures IsList(Gap(Some("," + (" " + b + ("," + " #"))), []), [Entry(b, NO_COMMENT)])
    ensures ',' !in "\n" + Quoted(b, '\"') && All("", SPACE) && All("\n", SPACE)
  {
    assert ']' !in " #" + ("\n" + Quoted(b, '\"')) && ']' !in " " + b;
  }

  lemma StandInText(b: string)
    ensures GapText(Gap(Some("," + (" " + b + ("," + " #"))), [])) == " #" + "" + ("," + (" " + b + ("," + " #\n")))
    ensures GapText(Gap(Some("," + (" " + b + ("," + " #"))), [])) + EntriesText([Entry(b, NO_COMMENT)], true, '\"')
         == " #" + "" + ("," + (" " + b + ("," + (" #" + ("\n" + Quoted(b, '\"')) + ("," + "\n")))))
  {
    var comment, quoted := "," + (" " + b + ("," + " #")), Quoted(b, '\"');
    TailOfVisible(comment);
    OneEntryText(b);
    assert GapText(Gap(Some(comment), [])) == " " + ("#" + comment) + "\n" + [];
    hide *;
    StandInJoins(" " + b, quoted);
  }

  lemma OneEntryText(b: string)
    ensures EntriesText([Entry(b, NO_COMMENT)], true, '\"') == Quoted(b, '\"') + ("," + "\n")
  {
    var entries, quoted := [Entry(b, NO_COMMENT)], Quoted(b, '\"');
    assert entries[1..] == [] && GapText(NO_COMMENT) == "\n";
    assert EntriesText(entries, true, '\"') == quoted + "," + "\n" + [];
    hide *;
    assert quoted + "," + "\n" + [] == quoted + ("," + "\n");
  }

  lemma StandInJoins(b: string, quoted: string)
    ensures " " + ("#" + ("," + (b + ("," + " #")))) + "\n" + [] == " #" + "" + ("," + (b + ("," + " #\n")))
    ensures " #" + "" + ("," + (b + ("," + " #\n"))) + (quoted + ("," + "\n"))
         == " #" + "" + ("," + (b + ("," + (" #" + ("\n" + quoted) + ("," + "\n")))))
  {
    var x, y := ",", " #";
    assert " " + ("#" + (x + (b + (x + y)))) + "\n" + [] == y + (x + (b + (x + (y + "\n"))));
    assert y + "" == y && y + "\n" == " #\n";
    assert y + (x + (b + (x + (y + "\n")))) + (quoted + (x + "\n"))
        == y + (x + (b + (x + (y + ("\n" + quoted) + (x + "\n")))));
  }

  lemma StandInDisturbs(b: string)
    ensures !Undisturbed(Gap(Some("," + (" " + b + ("," + " #"))), []), [Entry(b, NO_COMMENT)], true)
  {
    var s, front := GapText(Gap(Some("," + (" " + b + ("," + " #"))), [])), " #" + "" + ("," + (" " + b));
    StandInText(b);
    assert s == front + ("," + " #\n");
    SplitTogether(front, "," + " #\n");
    SplitAtFirst([], " #\n", ',');
    SplitWithout(" #\n", ',');
    assert [] + [','] + " #\n" == "," + " #\n";
    assert LastPiece(s) == " #\n";
    assert LastPiece(s)[1] == '#';
    hide Split;
    hide GapText;
  }
}
