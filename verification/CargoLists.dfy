/** Member lists over many lines, with comments anywhere among them, as the reader of a Cargo workspace reads them. */
module CargoLists {
  import opened Sequences
  import opened Options
  import opened Splitting
  import opened Trimming
  import opened CargoWorkspace

  // ----- What cleaning leaves of a quoted name -----

  /** What is trimmed from the left of a piece, and from its right. */
  function CleanStart(s: string): string {
    TrimStart(TrimStart(TrimStart(TrimStart(s, SPACE), DOUBLE_QUOTE), SINGLE_QUOTE), SPACE)
  }

  function CleanEnd(s: string): string {
    TrimEnd(TrimEnd(TrimEnd(TrimEnd(s, SPACE), DOUBLE_QUOTE), SINGLE_QUOTE), SPACE)
  }

  lemma QuoteIs(quote: char)
    requires IsQuote(quote)
    ensures !IsSpace(quote) && (DOUBLE_QUOTE(quote) || SINGLE_QUOTE(quote))
    ensures forall c :: IsSpace(c) ==> !DOUBLE_QUOTE(c) && !SINGLE_QUOTE(c)
  {
  }

  /** A plain name stays whole; what stands on its two sides is trimmed on its own. */
  lemma CleanAround(u: string, name: string, quote: char, v: string)
    requires IsQuote(quote) && IsPlain(name, quote)
    ensures Clean(u + Quoted(name, quote) + v) == CleanStart(u + [quote]) + name + CleanEnd([quote] + v)
  {
    var x0, y0 := u + [quote], [quote] + v;
    assert u + Quoted(name, quote) + v == x0 + name + y0;
    TrimAround(x0, name, y0, SPACE);
    var x1, y1 := TrimStart(x0, SPACE), TrimEnd(y0, SPACE);
    TrimStartKeepsEnd(x0, SPACE);
    TrimEndKeepsStart(y0, SPACE);
    QuoteStays(u, quote, v);
    TrimAround(x1, name, y1, DOUBLE_QUOTE);
    var x2, y2 := TrimStart(x1, DOUBLE_QUOTE), TrimEnd(y1, DOUBLE_QUOTE);
    TrimAround(x2, name, y2, SINGLE_QUOTE);
    TrimAround(TrimStart(x2, SINGLE_QUOTE), name, TrimEnd(y2, SINGLE_QUOTE), SPACE);
  }

  /** Trimming space leaves the quotes of the name where they are. */
  lemma QuoteStays(u: string, quote: char, v: string)
    requires IsQuote(quote)
    ensures var x, y := TrimStart(u + [quote], SPACE), TrimEnd([quote] + v, SPACE);
      x != [] && x[|x| - 1] == quote && y != [] && y[0] == quote
  {
    TrimStartKeepsEnd(u + [quote], SPACE);
    TrimEndKeepsStart([quote] + v, SPACE);
    assert (u + [quote])[|u|] == quote;
    TrimStays(u + [quote], [quote] + v, SPACE);
  }

  /** Nothing is left of what stands before the name exactly when only space does. */
  lemma CleanStartIff(u: string, quote: char)
    requires IsQuote(quote) && (u == [] || IsSpace(u[|u| - 1]))
    ensures CleanStart(u + [quote]) == [] <==> All(u, SPACE)
  {
    QuoteIs(quote);
    if All(u, SPACE) {
      TrimStartDrops(u, [quote], SPACE);
    } else {
      TrimStartBefore(u, [quote], SPACE);
      TrimStartKeepsEnd(u, SPACE);
      var x := TrimStart(u, SPACE) + [quote];
      StartStays(u, SPACE);
      KeepsLastTwo(x, DOUBLE_QUOTE);
      KeepsLastTwo(TrimStart(x, DOUBLE_QUOTE), SINGLE_QUOTE);
      var y := TrimStart(TrimStart(x, DOUBLE_QUOTE), SINGLE_QUOTE);
      TrimStays(y, y, SPACE);
    }
  }

  lemma CleanEndIff(v: string, quote: char)
    requires IsQuote(quote) && (v == [] || IsSpace(v[0]))
    ensures CleanEnd([quote] + v) == [] <==> All(v, SPACE)
  {
    QuoteIs(quote);
    if All(v, SPACE) {
      TrimEndDrops([quote], v, SPACE);
    } else {
      TrimEndAfter([quote], v, SPACE);
      TrimEndKeepsStart(v, SPACE);
      var x := [quote] + TrimEnd(v, SPACE);
      EndStays(v, SPACE);
      KeepsFirstTwo(x, DOUBLE_QUOTE);
      KeepsFirstTwo(TrimEnd(x, DOUBLE_QUOTE), SINGLE_QUOTE);
      var y := TrimEnd(TrimEnd(x, DOUBLE_QUOTE), SINGLE_QUOTE);
      TrimStays(y, y, SPACE);
    }
  }

  /** Trimming removes no hash sign. */
  lemma CleanKeepsHashes(s: string)
    ensures multiset(Clean(s))['#'] == multiset(s)['#']
  {
    var a := Trim(s, SPACE);
    var b := Trim(a, DOUBLE_QUOTE);
    var c := Trim(b, SINGLE_QUOTE);
    TrimKeepsCount(s, SPACE, '#');
    TrimKeepsCount(a, DOUBLE_QUOTE, '#');
    TrimKeepsCount(b, SINGLE_QUOTE, '#');
    TrimKeepsCount(c, SPACE, '#');
    hide Trim;
  }

  predicate IsDropped(piece: string) {
    Clean(piece) == [] || Clean(piece)[0] == '#'
  }

  lemma KeptOne(piece: string)
    ensures Kept([piece]) == if IsDropped(piece) then [] else [Clean(piece)]
  {
    assert [piece][1..] == [];
  }

  lemma {:induction false} KeptAppend(a: seq<string>, b: seq<string>)
    ensures Kept(a + b) == Kept(a) + Kept(b)
  {
    if a == [] {
      assert a + b == b;
    } else {
      assert (a + b)[1..] == a[1..] + b;
      KeptAppend(a[1..], b);
    }
  }

  ghost predicate AllDropped(pieces: seq<string>) {
    forall i :: 0 <= i < |pieces| ==> IsDropped(pieces[i])
  }

  lemma {:induction false} DroppedAreNotKept(pieces: seq<string>)
    requires AllDropped(pieces)
    ensures Kept(pieces) == []
  {
    if pieces != [] {
      DroppedAreNotKept(pieces[1..]);
    }
  }

  /** Blank, or with a hash sign in it. */
  predicate BlankOrHash(s: string) {
    All(s, SPACE) || '#' in s
  }

  /**
   A name between two texts is read exactly when it is plain and both are blank. A text that is neither blank nor holds
   a hash sign may, next to a name that is not plain, happen to leave such a name.
   */
  lemma PieceIff(u: string, name: string, quote: char, v: string)
    requires IsQuote(quote) && ',' !in name && ']' !in name
    requires (u == [] || IsSpace(u[|u| - 1])) && (v == [] || IsSpace(v[0]))
    requires IsPlain(name, quote) || (BlankOrHash(u) && BlankOrHash(v))
    ensures Kept([u + Quoted(name, quote) + v]) == [name] <==>
      All(u, SPACE) && All(v, SPACE) && IsPlain(name, quote)
  {
    var s := u + Quoted(name, quote) + v;
    KeptOne(s);
    PlainIs(name, quote);
    hide *;
    if All(u, SPACE) && All(v, SPACE) {
      CleanRestoresIff(u, name, quote, v);
    } else if IsPlain(name, quote) {
      CleanAround(u, name, quote, v);
      CleanStartIff(u, quote);
      CleanEndIff(v, quote);
      NotEqual(CleanStart(u + [quote]), name, CleanEnd([quote] + v));
    } else {
      HashStays(u, name, quote, v);
    }
    DroppedOrKept(s, name);
  }

  lemma PlainIs(name: string, quote: char)
    requires ',' !in name && ']' !in name
    ensures IsPlain(name, quote) <==>
      && name != [] && name[0] != '#' && Unpadded(name, SPACE) && Unpadded(name, SINGLE_QUOTE)
      && (quote == '\"' ==> Unpadded(name, DOUBLE_QUOTE))
  {
  }

  lemma NotEqual(a: string, name: string, b: string)
    requires a != [] || b != []
    ensures a + name + b != name
  {
    assert |a + name + b| > |name|;
  }

  lemma DroppedOrKept(s: string, name: string)
    ensures IsDropped(s) && Clean(s) == name ==> name == [] || name[0] == '#'
    ensures !IsDropped(s) && Clean(s) == name ==> name != [] && name[0] != '#'
  {
    hide Clean;
  }

  lemma HashStays(u: string, name: string, quote: char, v: string)
    requires '#' in u || '#' in v
    ensures Clean(u + Quoted(name, quote) + v) != name
  {
    var s, quoted := u + Quoted(name, quote) + v, [quote] + name + [quote];
    assert Quoted(name, quote) == quoted;
    CleanKeepsHashes(s);
    hide *;
    assert multiset(s) == multiset(u) + multiset(quoted) + multiset(v);
    assert multiset(quoted) == multiset{quote} + multiset(name) + multiset{quote};
  }

  // ----- A list over many lines -----

  /**
   What stands between one member and the next: a comment behind the comma or bracket, and below it blank lines and
   lines with a comment of their own.
   */
  datatype Gap = Gap(behind: Option<string>, below: seq<Option<string>>)

  /** A member and the comments behind it. */
  datatype Entry = Entry(name: string, gap: Gap)

  function NamesOf(entries: seq<Entry>): (names: seq<string>)
    ensures |names| == |entries| && forall i :: 0 <= i < |entries| ==> names[i] == entries[i].name
  {
    if entries == [] then [] else [entries[0].name] + NamesOf(entries[1..])
  }

  function Behind(remark: Option<string>): string {
    if remark.Some? then " " + ("#" + remark.value) else ""
  }

  function Remark(text: Option<string>): string {
    if text.Some? then "#" + text.value else ""
  }

  function Remarks(texts: seq<Option<string>>, indent: string): seq<string> {
    if texts == [] then [] else [indent + Remark(texts[0])] + Remarks(texts[1..], indent)
  }

  /** Every member has a comma behind it; the last one may do without. */
  function Comma(entries: seq<Entry>, comma: bool): string {
    if comma || |entries| > 1 then "," else ""
  }

  function EntryLine(entries: seq<Entry>, comma: bool, quote: char): string
    requires entries != []
  {
    Quoted(entries[0].name, quote) + Comma(entries, comma) + Behind(entries[0].gap.behind)
  }

  function EntryLines(entries: seq<Entry>, comma: bool, indent: string, quote: char): seq<string> {
    if entries == [] then []
    else
      [indent + EntryLine(entries, comma, quote)] +
      (Remarks(entries[0].gap.below, indent) + EntryLines(entries[1..], comma, indent, quote))
  }

  /** The list over many lines; anything may follow its closing bracket. */
  function ManyLines(first: Gap, entries: seq<Entry>, comma: bool, indent: string, quote: char, closing: string)
    : seq<string>
  {
    ["members = [" + Behind(first.behind)] +
    (Remarks(first.below, indent) + EntryLines(entries, comma, indent, quote) + ["]" + closing])
  }

  ghost predicate IsGap(g: Gap) {
    && (g.behind.Some? ==> '\n' !in g.behind.value)
    && forall i :: 0 <= i < |g.below| && g.below[i].Some? ==> '\n' !in g.below[i].value
  }

  /** Comments and names are single lines. */
  ghost predicate IsList(first: Gap, entries: seq<Entry>) {
    IsGap(first) && forall i :: 0 <= i < |entries| ==> '\n' !in entries[i].name && IsGap(entries[i].gap)
  }

  // ----- What is collected of it -----

  /** A comment as it is collected: trimmed at its end. */
  function Tail(text: string): (r: string)
    ensures forall c :: c in r ==> c == '#' || c in text
  {
    TrimEnd("#" + text, SPACE)
  }

  lemma TailStarts(text: string)
    ensures Tail(text) != [] && Tail(text)[0] == '#'
  {
    TrimStays([], "#" + text, SPACE);
    TrimEndKeepsStart("#" + text, SPACE);
  }

  function BehindText(remark: Option<string>): string {
    if remark.Some? then " " + Tail(remark.value) else ""
  }

  function RemarkText(text: Option<string>): string {
    if text.Some? then Tail(text.value) else ""
  }

  function BelowText(texts: seq<Option<string>>): string {
    if texts == [] then [] else RemarkText(texts[0]) + "\n" + BelowText(texts[1..])
  }

  /** What is collected between a comma, or bracket, and the next member. */
  function GapText(g: Gap): string {
    BehindText(g.behind) + "\n" + BelowText(g.below)
  }

  function EntriesText(entries: seq<Entry>, comma: bool, quote: char): string {
    if entries == [] then []
    else
      Quoted(entries[0].name, quote) + Comma(entries, comma) + GapText(entries[0].gap) +
      EntriesText(entries[1..], comma, quote)
  }

  /** The part before the first closing bracket, or all of a text without one. */
  function Front(s: string): string {
    match UpTo(s, ']')
    case Some(front) => front
    case None => s
  }

  lemma {:induction false} FrontAppend(a: string, b: string)
    ensures Front(a + b) == if ']' in a then Front(a) else a + Front(b)
  {
    if a == [] {
      assert a + b == b;
    } else {
      FrontAppend(a[1..], b);
      FrontStep(a);
      FrontStep(a + b);
      FirstOf(a, b);
      FirstOf(a, Front(b));
      hide *;
    }
  }

  lemma FirstOf(a: string, b: string)
    requires a != []
    ensures a + b != [] && (a + b)[0] == a[0] && (a + b)[1..] == a[1..] + b
    ensures [a[0]] + (a[1..] + b) == a + b
    ensures ']' in a <==> a[0] == ']' || ']' in a[1..]
  {
    HeadAndTail(a);
    InHeadOrTail(a);
    Associative([a[0]], a[1..], b);
  }

  lemma FrontStep(s: string)
    requires s != []
    ensures Front(s) == if s[0] == ']' then [] else [s[0]] + Front(s[1..])
  {
    assert s == [s[0]] + s[1..];
  }

  lemma FrontIs(s: string)
    ensures ']' in s ==> UpTo(s, ']') == Some(Front(s))
    ensures ']' !in s ==> UpTo(s, ']') == None && Front(s) == s
    ensures ']' !in Front(s)
  {
    UpToStops(s, ']');
  }

  function Collected(lines: seq<string>): string {
    if lines == [] then [] else Trim(lines[0], SPACE) + "\n" + Collected(lines[1..])
  }

  lemma {:induction false} CollectedAppend(a: seq<string>, b: seq<string>)
    ensures Collected(a + b) == Collected(a) + Collected(b)
  {
    if a == [] {
      assert a + b == b;
    } else {
      assert (a + b)[1..] == a[1..] + b;
      CollectedAppend(a[1..], b);
    }
  }

  ghost predicate NoHeaders(lines: seq<string>) {
    forall i :: 0 <= i < |lines| ==> !IsHeader(Trim(lines[i], SPACE))
  }

  /** Inside the list the reader collects trimmed lines up to the first closing bracket. */
  lemma {:induction false} CollectsUpTo(buffer: string, lines: seq<string>)
    requires ']' !in buffer && ']' in Collected(lines) && NoHeaders(lines)
    ensures Read(Collecting(buffer), lines) == Closed(Front(buffer + Collected(lines)))
    decreases |lines|
  {
    var line, rest := Trim(lines[0], SPACE), lines[1..];
    StepInside(buffer, lines[0]);
    assert NoHeaders(rest);
    assert Collected(lines) == line + "\n" + Collected(rest);
    assert Read(Collecting(buffer), lines) == Read(Step(Collecting(buffer), lines[0]), rest);
    hide *;
    if ']' in line {
      BracketInLine(buffer, line, Collected(rest));
      ReadEnds(Closed(buffer + Front(line)), rest);
    } else {
      CollectsUpTo(buffer + line + "\n", rest);
      assert buffer + (line + "\n" + Collected(rest)) == buffer + line + "\n" + Collected(rest);
    }
  }

  lemma StepInside(buffer: string, line: string)
    requires !IsHeader(Trim(line, SPACE))
    ensures var trimmed := Trim(line, SPACE);
      Step(Collecting(buffer), line)
      == if ']' in trimmed then Closed(buffer + Front(trimmed)) else Collecting(buffer + trimmed + "\n")
  {
    FrontIs(Trim(line, SPACE));
    hide Trim;
    hide Front;
  }

  lemma BracketInLine(buffer: string, line: string, more: string)
    requires ']' !in buffer && ']' in line
    ensures Front(buffer + (line + "\n" + more)) == buffer + Front(line)
  {
    FrontAppend(buffer, line + "\n" + more);
    FrontAppend(line, "\n" + more);
    hide *;
    Associative(line, "\n", more);
  }

  /** What stands before a comment stays; the comment loses the space at its end. */
  lemma TrimBeforeComment(indent: string, front: string, text: string)
    requires All(indent, SPACE) && (front == [] || !IsSpace(front[0]))
    ensures Trim(indent + (front + ("#" + text)), SPACE) == front + Tail(text)
  {
    var comment := "#" + text;
    TrimPadding(indent, front + comment, [], SPACE);
    assert indent + (front + comment) + [] == indent + (front + comment);
    assert !All(comment, SPACE) by {
      assert comment[0] == '#';
    }
    TrimEndAfter(front, comment, SPACE);
    assert (front + comment)[0] == if front == [] then '#' else front[0];
    assert TrimStart(front + comment, SPACE) == front + comment;
  }

  lemma {:induction false} RemarksCollected(texts: seq<Option<string>>, indent: string)
    requires All(indent, SPACE)
    ensures Collected(Remarks(texts, indent)) == BelowText(texts) && NoHeaders(Remarks(texts, indent))
  {
    if texts != [] {
      var line, more := indent + Remark(texts[0]), Remarks(texts[1..], indent);
      assert Remarks(texts, indent) == [line] + more;
      assert BelowText(texts) == RemarkText(texts[0]) + "\n" + BelowText(texts[1..]);
      RemarkTrims(texts[0], indent);
      RemarksCollected(texts[1..], indent);
      hide *;
      CollectedCons(line, more);
      NoHeaderFirst(line, more);
    }
  }

  lemma RemarkTrims(text: Option<string>, indent: string)
    requires All(indent, SPACE)
    ensures Trim(indent + Remark(text), SPACE) == RemarkText(text) && !IsHeader(RemarkText(text))
  {
    if text.Some? {
      TrimBeforeComment(indent, [], text.value);
      TailStarts(text.value);
      assert [] + ("#" + text.value) == "#" + text.value && [] + Tail(text.value) == Tail(text.value);
    } else {
      TrimPadding(indent, "", "", SPACE);
      assert indent + "" + "" == indent + "";
    }
    hide Trim;
    hide Tail;
  }

  lemma NoHeaderFirst(line: string, rest: seq<string>)
    requires !IsHeader(Trim(line, SPACE)) && NoHeaders(rest)
    ensures NoHeaders([line] + rest)
  {
    hide IsHeader;
    hide Trim;
  }

  lemma EntryLineTrims(entries: seq<Entry>, comma: bool, indent: string, quote: char)
    requires entries != [] && All(indent, SPACE) && IsQuote(quote)
    ensures var line := Trim(indent + EntryLine(entries, comma, quote), SPACE);
      && line == Quoted(entries[0].name, quote) + Comma(entries, comma) + BehindText(entries[0].gap.behind)
      && !IsHeader(line)
  {
    var front := Quoted(entries[0].name, quote) + Comma(entries, comma);
    assert front[0] == quote && !IsSpace(quote) && quote != '[';
    assert !IsSpace(front[|front| - 1]);
    hide Comma;
    hide Quoted;
    LineTrims(indent, front, entries[0].gap.behind);
  }

  /** A line that is trimmed in front of its comment only. */
  lemma LineTrims(indent: string, front: string, behind: Option<string>)
    requires All(indent, SPACE) && front != [] && !IsSpace(front[0]) && !IsSpace(front[|front| - 1]) && front[0] != '['
    ensures Trim(indent + (front + Behind(behind)), SPACE) == front + BehindText(behind)
    ensures !IsHeader(front + BehindText(behind))
  {
    assert (front + BehindText(behind))[0] == front[0];
    if behind.Some? {
      TrimBeforeComment(indent, front + " ", behind.value);
      Associative(front, " ", "#" + behind.value);
      Associative(front, " ", Tail(behind.value));
    } else {
      assert front + "" == front && indent + front + [] == indent + front;
      TrimPadding(indent, front, [], SPACE);
      TrimUnpads(front, SPACE);
    }
    hide Trim;
    hide Tail;
  }

  lemma {:induction false} EntriesCollected(entries: seq<Entry>, comma: bool, indent: string, quote: char)
    requires All(indent, SPACE) && IsQuote(quote)
    ensures Collected(EntryLines(entries, comma, indent, quote)) == EntriesText(entries, comma, quote)
    ensures NoHeaders(EntryLines(entries, comma, indent, quote))
    decreases |entries|
  {
    if entries != [] {
      var line, below := indent + EntryLine(entries, comma, quote), Remarks(entries[0].gap.below, indent);
      var more := EntryLines(entries[1..], comma, indent, quote);
      EntryLineTrims(entries, comma, indent, quote);
      RemarksCollected(entries[0].gap.below, indent);
      EntriesCollected(entries[1..], comma, indent, quote);
      CollectedAppend(below, more);
      CollectedCons(line, below + more);
      assert EntryLines(entries, comma, indent, quote) == [line] + (below + more);
      hide Trim;
      hide Collected;
      hide Remarks;
      hide EntryLine;
      Together(Quoted(entries[0].name, quote) + Comma(entries, comma), BehindText(entries[0].gap.behind), "\n",
               BelowText(entries[0].gap.below), EntriesText(entries[1..], comma, quote));
    }
  }

  lemma CollectedCons(line: string, rest: seq<string>)
    ensures Collected([line] + rest) == Trim(line, SPACE) + "\n" + Collected(rest)
  {
    assert ([line] + rest)[1..] == rest;
  }

  lemma Together(a: string, b: string, c: string, d: string, e: string)
    ensures a + b + c + (d + e) == a + (b + c + d) + e
  {
  }

  /** The line that opens the list. */
  lemma ListOpens(behind: Option<string>)
    ensures Step(Scanning(true), "members = [" + Behind(behind)) ==
      if ']' in BehindText(behind) then Closed(Front(BehindText(behind))) else Collecting(BehindText(behind) + "\n")
  {
    var opening, rest := "members = [", BehindText(behind);
    OpeningTrims(behind);
    assert (opening + rest)[0] == 'm';
    OpeningLine(rest);
    FrontIs(rest);
    hide Trim;
    hide Start;
    hide Front;
    hide BehindText;
    hide Behind;
  }

  lemma OpeningTrims(behind: Option<string>)
    ensures Trim("members = [" + Behind(behind), SPACE) == "members = [" + BehindText(behind)
  {
    var opening := "members = [";
    assert opening[0] == 'm' && opening[|opening| - 1] == '[';
    LineTrims([], opening, behind);
    hide Trim;
    assert [] + (opening + Behind(behind)) == opening + Behind(behind);
  }

  /** The reader collects the text of the list up to its first closing bracket. */
  lemma ListIsRead(first: Gap, entries: seq<Entry>, comma: bool, indent: string, quote: char, closing: string,
                   after: seq<string>)
    requires All(indent, SPACE) && IsQuote(quote)
    ensures Read(Scanning(true), ManyLines(first, entries, comma, indent, quote, closing) + after)
         == Closed(Front(GapText(first) + EntriesText(entries, comma, quote)))
  {
    var opening, behind := "members = [" + Behind(first.behind), BehindText(first.behind);
    var lines := Remarks(first.below, indent) + EntryLines(entries, comma, indent, quote) + ["]" + closing];
    var text := BelowText(first.below) + EntriesText(entries, comma, quote);
    assert ManyLines(first, entries, comma, indent, quote, closing) + after == [opening] + (lines + after);
    assert GapText(first) + EntriesText(entries, comma, quote) == behind + "\n" + text;
    ListOpens(first.behind);
    ListCollected(first, entries, comma, indent, quote, closing);
    hide *;
    ReadOne(Scanning(true), opening, lines + after);
    if ']' in behind {
      BracketBehind(behind, text);
      ReadEnds(Closed(Front(behind)), lines + after);
    } else {
      ListCloses(behind + "\n", text, lines, closing, after);
    }
  }

  lemma BracketBehind(behind: string, text: string)
    requires ']' in behind
    ensures Front(behind + "\n" + text) == Front(behind)
  {
    assert behind + "\n" + text == behind + ("\n" + text);
    FrontAppend(behind, "\n" + text);
    hide *;
  }

  lemma ListCloses(buffer: string, text: string, lines: seq<string>, closing: string, after: seq<string>)
    requires ']' !in buffer && ']' in Collected(lines) && NoHeaders(lines)
    requires Collected(lines) == text + (Trim("]" + closing, SPACE) + "\n")
    ensures Read(Collecting(buffer), lines + after) == Closed(Front(buffer + text))
  {
    hide *;
    ReadAppend(Collecting(buffer), lines, after);
    CollectsUpTo(buffer, lines);
    ClosingCuts(buffer + text, closing);
    Associative(buffer, text, Trim("]" + closing, SPACE) + "\n");
    ReadEnds(Closed(Front(buffer + text)), after);
  }

  lemma ListCollected(first: Gap, entries: seq<Entry>, comma: bool, indent: string, quote: char, closing: string)
    requires All(indent, SPACE) && IsQuote(quote)
    ensures var lines := Remarks(first.below, indent) + EntryLines(entries, comma, indent, quote) + ["]" + closing];
      && NoHeaders(lines) && ']' in Collected(lines)
      && Collected(lines)
      == BelowText(first.below) + EntriesText(entries, comma, quote) + (Trim("]" + closing, SPACE) + "\n")
  {
    var below, more, last := Remarks(first.below, indent), EntryLines(entries, comma, indent, quote), "]" + closing;
    RemarksCollected(first.below, indent);
    EntriesCollected(entries, comma, indent, quote);
    ClosingCollected(closing);
    hide *;
    CollectedAppend(below, more);
    CollectedAppend(below + more, [last]);
    NoHeadersTogether(below, more, last);
  }

  lemma ClosingCollected(closing: string)
    ensures var last := Trim("]" + closing, SPACE);
      !IsHeader(last) && ']' in last && Collected(["]" + closing]) == last + "\n"
  {
    TrimKeepsHead("]" + closing, SPACE);
    assert ["]" + closing][1..] == [];
    assert Trim("]" + closing, SPACE) + "\n" + [] == Trim("]" + closing, SPACE) + "\n";
    hide Trim;
  }

  lemma NoHeadersTogether(a: seq<string>, b: seq<string>, last: string)
    requires NoHeaders(a) && NoHeaders(b) && !IsHeader(Trim(last, SPACE))
    ensures NoHeaders(a + b + [last])
  {
    hide IsHeader;
    hide Trim;
  }

  /** The closing bracket cuts off exactly what the text of the list does not. */
  lemma ClosingCuts(text: string, closing: string)
    ensures Front(text + (Trim("]" + closing, SPACE) + "\n")) == Front(text)
  {
    var rest := Trim("]" + closing, SPACE) + "\n";
    TrimKeepsHead("]" + closing, SPACE);
    FrontAppend(text, rest);
    FrontStep(rest);
    FrontIs(text);
    hide Trim;
    assert text + [] == text;
  }

  // ----- The pieces between the commas -----

  function FirstPiece(s: string): string {
    Split(s, ',')[0]
  }

  function LastPiece(s: string): string {
    Split(s, ',')[|Split(s, ',')| - 1]
  }

  /** The pieces but the last, and but the first. */
  function PiecesBefore(s: string): seq<string> {
    Split(s, ',')[..|Split(s, ',')| - 1]
  }

  function PiecesAfter(s: string): seq<string> {
    Split(s, ',')[1..]
  }

  lemma {:induction false} SplitTogether(a: string, b: string)
    ensures Split(a + b, ',') == PiecesBefore(a) + [LastPiece(a) + FirstPiece(b)] + PiecesAfter(b)
  {
    if a == [] {
      assert a + b == b && [] + FirstPiece(b) == FirstPiece(b);
      HeadAndTail(Split(b, ','));
    } else {
      SplitTogether(a[1..], b);
      OneMoreCharacter(a);
      assert (a + b)[1..] == a[1..] + b;
      SplitOf(a + b);
      var before, last, first, after := PiecesBefore(a[1..]), LastPiece(a[1..]), FirstPiece(b), PiecesAfter(b);
      hide *;
      if a[0] == ',' {
        NewPiece(before, [last + first], after);
      } else if before == [] {
        LongerOnly([a[0]], last, first, after);
      } else {
        LongerFirst([a[0]], before, [last + first], after);
      }
    }
  }

  lemma SplitOf(s: string)
    requires s != []
    ensures Split(s, ',') == var rest := Split(s[1..], ',');
      if s[0] == ',' then [[]] + rest else [[s[0]] + rest[0]] + rest[1..]
  {
  }

  lemma NewPiece(before: seq<string>, piece: seq<string>, after: seq<string>)
    ensures [[]] + (before + piece + after) == [[]] + before + piece + after
  {
  }

  lemma LongerOnly(c: string, last: string, first: string, after: seq<string>)
    ensures var s := [] + [last + first] + after;
      [c + s[0]] + s[1..] == [] + [c + last + first] + after
  {
    Associative(c, last, first);
    assert [] + [last + first] + after == [last + first] + after;
  }

  lemma LongerFirst(c: string, before: seq<string>, piece: seq<string>, after: seq<string>)
    requires before != []
    ensures var s := before + piece + after;
      [c + s[0]] + s[1..] == [c + before[0]] + before[1..] + piece + after
  {
  }

  /** One character more at the start of what is split. */
  lemma OneMoreCharacter(a: string)
    requires a != []
    ensures var before, last := PiecesBefore(a[1..]), LastPiece(a[1..]);
      if a[0] == ',' then PiecesBefore(a) == [[]] + before && LastPiece(a) == last
      else if before == [] then PiecesBefore(a) == [] && LastPiece(a) == [a[0]] + last
      else PiecesBefore(a) == [[a[0]] + before[0]] + before[1..] && LastPiece(a) == last
  {
    SplitOf(a);
    hide Split;
  }

  lemma NoCommaSplits(s: string)
    requires ',' !in s
    ensures FirstPiece(s) == LastPiece(s) == s && PiecesBefore(s) == [] && PiecesAfter(s) == []
  {
    SplitWithout(s, ',');
  }

  /** A comma starts a new piece. */
  lemma CommaSplits(s: string, t: string)
    ensures Patterns(s + ("," + t)) == Patterns(s) + Patterns(t)
  {
    SplitTogether(s, "," + t);
    SplitAtFirst([], t, ',');
    assert [] + [','] + t == "," + t;
    assert FirstPiece("," + t) == [] && PiecesAfter("," + t) == Split(t, ',');
    InitAndLast(Split(s, ','));
    assert LastPiece(s) + [] == LastPiece(s);
    KeptAppend(Split(s, ','), Split(t, ','));
  }

  /** A quoted name without commas joins the pieces on its two sides. */
  lemma NameJoins(s: string, quoted: string, t: string)
    requires ',' !in quoted
    ensures Patterns(s + quoted + t)
         == Kept(PiecesBefore(s)) + Kept([LastPiece(s) + quoted + FirstPiece(t)]) + Kept(PiecesAfter(t))
  {
    var piece := LastPiece(s) + quoted + FirstPiece(t);
    NameSplits(s, quoted, t);
    assert Patterns(s + quoted + t) == Kept(Split(s + quoted + t, ','));
    hide *;
    KeptAppend(PiecesBefore(s) + [piece], PiecesAfter(t));
    KeptAppend(PiecesBefore(s), [piece]);
  }

  lemma NameSplits(s: string, quoted: string, t: string)
    requires ',' !in quoted
    ensures Split(s + quoted + t, ',')
         == PiecesBefore(s) + [LastPiece(s) + quoted + FirstPiece(t)] + PiecesAfter(t)
  {
    SplitTogether(quoted, t);
    NoCommaSplits(quoted);
    SplitTogether(s, quoted + t);
    assert Split(quoted + t, ',') == [quoted + FirstPiece(t)] + PiecesAfter(t);
    TailOfCons(quoted + FirstPiece(t), PiecesAfter(t));
    assert FirstPiece(quoted + t) == quoted + FirstPiece(t) && PiecesAfter(quoted + t) == PiecesAfter(t);
    hide *;
    Associative(s, quoted, t);
    Associative(LastPiece(s), quoted, FirstPiece(t));
  }
}
