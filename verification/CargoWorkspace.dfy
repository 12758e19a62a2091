/** The hand-written reader of the members of a Cargo workspace, and what it reads back. */
module CargoWorkspace {
  import opened Options
  import opened Splitting
  import opened Trimming

  predicate IsSpace(c: char) {
    || 9 <= c as int <= 13 || c == ' ' || c as int == 0x85 || c as int == 0xA0 || c as int == 0x1680
    || 0x2000 <= c as int <= 0x200A || c as int == 0x2028 || c as int == 0x2029 || c as int == 0x202F
    || c as int == 0x205F || c as int == 0x3000
  }

  /** The white space of the Unicode standard, point by point. */
  const SPACES: set<int> := {
    0x9, 0xA, 0xB, 0xC, 0xD, 0x20, 0x85, 0xA0, 0x1680, 0x2000, 0x2001, 0x2002, 0x2003, 0x2004, 0x2005, 0x2006, 0x2007,
    0x2008, 0x2009, 0x200A, 0x2028, 0x2029, 0x202F, 0x205F, 0x3000}

  lemma SpacesAre(c: char)
    ensures IsSpace(c) <==> c as int in SPACES
  {
  }

  const SPACE: Test := (c: char) => IsSpace(c)
  const DOUBLE_QUOTE: Test := (c: char) => c == '\"'
  const SINGLE_QUOTE: Test := (c: char) => c == '\''

  /** What is left of a text after its prefix. */
  function AfterPrefix(s: string, prefix: string): Option<string> {
    if prefix <= s then Some(s[|prefix|..]) else None
  }

  /** The part before the first occurrence of a character. */
  function UpTo(s: string, c: char): Option<string> {
    if s == [] then None
    else if s[0] == c then Some([])
    else
      match UpTo(s[1..], c)
      case None => None
      case Some(rest) => Some([s[0]] + rest)
  }

  /** Where the reader stands: looking for the list, inside it, past it, or giving up. */
  datatype Reader = Scanning(inWorkspace: bool) | Collecting(buffer: string) | Closed(block: string) | Failed

  predicate IsHeader(trimmed: string) {
    "[" <= trimmed && trimmed[|trimmed| - 1] == ']'
  }

  function Start(trimmed: string): Reader {
    match AfterPrefix(trimmed, "members")
    case None => Scanning(true)
    case Some(rest) =>
      match AfterPrefix(TrimStart(rest, SPACE), "=")
      case None => Failed
      case Some(value) =>
        match AfterPrefix(TrimStart(value, SPACE), "[")
        case None => Scanning(true)
        case Some(list) =>
          match UpTo(list, ']')
          case Some(block) => Closed(block)
          case None => Collecting(list + "\n")
  }

  /** One line. */
  function Step(r: Reader, line: string): Reader {
    var trimmed := Trim(line, SPACE);
    match r
    case Scanning(inWorkspace) =>
      if IsHeader(trimmed) then Scanning(trimmed == "[workspace]")
      else if inWorkspace then Start(trimmed)
      else r
    case Collecting(buffer) =>
      if IsHeader(trimmed) then Failed
      else if UpTo(trimmed, ']').Some? then Closed(buffer + UpTo(trimmed, ']').value)
      else Collecting(buffer + trimmed + "\n")
    case _ => r
  }

  function Read(r: Reader, lines: seq<string>): Reader
    decreases |lines|
  {
    if lines == [] then r else Read(Step(r, lines[0]), lines[1..])
  }

  function Clean(piece: string): string {
    Trim(Trim(Trim(Trim(piece, SPACE), DOUBLE_QUOTE), SINGLE_QUOTE), SPACE)
  }

  function Kept(pieces: seq<string>): seq<string> {
    if pieces == [] then []
    else
      var p := Clean(pieces[0]);
      (if p != [] && p[0] != '#' then [p] else []) + Kept(pieces[1..])
  }

  function Patterns(block: string): seq<string> {
    Kept(Split(block, ','))
  }

  function MembersIn(lines: seq<string>): Option<seq<string>> {
    match Read(Scanning(false), lines)
    case Closed(block) => if Patterns(block) == [] then None else Some(Patterns(block))
    case _ => None
  }

  function Members(content: string): Option<seq<string>> {
    MembersIn(Lines(content))
  }

  lemma {:induction false} ReadAppend(r: Reader, a: seq<string>, b: seq<string>)
    ensures Read(r, a + b) == Read(Read(r, a), b)
    decreases |a|
  {
    if a == [] {
      assert a + b == b;
    } else {
      assert (a + b)[1..] == a[1..] + b;
      ReadAppend(Step(r, a[0]), a[1..], b);
    }
  }

  lemma ReadOne(r: Reader, line: string, rest: seq<string>)
    ensures Read(r, [line] + rest) == Read(Step(r, line), rest)
  {
    assert ([line] + rest)[1..] == rest;
  }

  lemma {:induction false} ReadEnds(r: Reader, lines: seq<string>)
    requires r.Closed? || r.Failed?
    ensures Read(r, lines) == r
    decreases |lines|
  {
    if lines != [] {
      ReadEnds(r, lines[1..]);
    }
  }

  lemma {:induction false} KeptSnoc(pieces: seq<string>, p: string)
    ensures Kept(pieces + [p]) == Kept(pieces) + if Clean(p) != [] && Clean(p)[0] != '#' then [Clean(p)] else []
  {
    if pieces == [] {
      assert pieces + [p] == [p];
    } else {
      assert (pieces + [p])[1..] == pieces[1..] + [p];
      KeptSnoc(pieces[1..], p);
    }
  }

  /** The program's reader, line by line. */
  method ProbeCargoWorkspace(content: string) returns (r: Option<seq<string>>)
    ensures r == Members(content)
  {
    var lines := Lines(content);
    var inWorkspace := false;
    var membersBlock: Option<string> := None;
    var buffer := "";
    var collecting := false;
    var i := 0;
    hide Read;
    hide Trim;
    hide TrimStart;
    hide UpTo;
    while i < |lines|
      invariant 0 <= i <= |lines|
      invariant membersBlock == None && (!collecting ==> buffer == "")
      invariant Read(Scanning(false), lines) == Read(Now(collecting, buffer, inWorkspace), lines[i..])
    {
      var trimmed := Trim(lines[i], SPACE);
      NextLine(Now(collecting, buffer, inWorkspace), lines, i);
      if IsHeader(trimmed) {
        if collecting {
          break;
        }
        inWorkspace := trimmed == "[workspace]";
      } else if inWorkspace || collecting {
        if !collecting {
          var rest := AfterPrefix(trimmed, "members");
          if rest.Some? {
            var value := AfterPrefix(TrimStart(rest.value, SPACE), "=");
            if value.None? {
              return None;
            }
            var list := AfterPrefix(TrimStart(value.value, SPACE), "[");
            if list.Some? {
              var block := UpTo(list.value, ']');
              if block.Some? {
                membersBlock := block;
                break;
              }
              buffer := list.value + "\n";
              collecting := true;
            }
          }
        } else {
          var end := UpTo(trimmed, ']');
          if end.Some? {
            membersBlock := Some(buffer + end.value);
            break;
          }
          buffer := buffer + trimmed + "\n";
        }
      }
      i := i + 1;
    }
    NothingLeft(Now(collecting, buffer, inWorkspace), lines[i..]);
    if membersBlock.None? {
      return None;
    }
    var patterns := CollectPatterns(Split(membersBlock.value, ','));
    r := if patterns == [] then None else Some(patterns);
  }

  /** Where the program's variables say the reader stands. */
  function Now(collecting: bool, buffer: string, inWorkspace: bool): Reader {
    if collecting then Collecting(buffer) else Scanning(inWorkspace)
  }

  lemma NextLine(r: Reader, lines: seq<string>, i: nat)
    requires i < |lines|
    ensures Read(r, lines[i..]) == Read(Step(r, lines[i]), lines[i + 1..])
    ensures Step(r, lines[i]).Closed? || Step(r, lines[i]).Failed? ==> Read(r, lines[i..]) == Step(r, lines[i])
  {
    var s := Step(r, lines[i]);
    if s.Closed? || s.Failed? {
      ReadEnds(s, lines[i + 1..]);
    }
  }

  lemma NothingLeft(r: Reader, lines: seq<string>)
    ensures lines == [] ==> Read(r, lines) == r
  {
  }

  method CollectPatterns(pieces: seq<string>) returns (patterns: seq<string>)
    ensures patterns == Kept(pieces)
  {
    patterns := [];
    for i := 0 to |pieces|
      invariant patterns == Kept(pieces[..i])
    {
      var p := Clean(pieces[i]);
      assert pieces[..i + 1] == pieces[..i] + [pieces[i]];
      KeptSnoc(pieces[..i], pieces[i]);
      if p != [] && p[0] != '#' {
        patterns := patterns + [p];
      }
    }
    assert pieces[..|pieces|] == pieces;
  }

  // ----- What the reader can return at all -----

  lemma {:induction false} UpToStops(s: string, c: char)
    ensures UpTo(s, c).None? <==> c !in s
    ensures UpTo(s, c).Some? ==> c !in UpTo(s, c).value
  {
    if s != [] {
      UpToStops(s[1..], c);
      assert s == [s[0]] + s[1..];
    }
  }

  predicate NoBracket(r: Reader) {
    match r
    case Collecting(buffer) => ']' !in buffer
    case Closed(block) => ']' !in block
    case _ => true
  }

  lemma {:induction false} ReadHasNoBracket(r: Reader, lines: seq<string>)
    requires NoBracket(r)
    ensures NoBracket(Read(r, lines))
    decreases |lines|
  {
    if lines != [] {
      var trimmed := Trim(lines[0], SPACE);
      UpToStops(trimmed, ']');
      if r.Scanning? {
        StartHasNoBracket(trimmed);
      }
      ReadHasNoBracket(Step(r, lines[0]), lines[1..]);
    }
  }

  lemma StartHasNoBracket(trimmed: string)
    ensures NoBracket(Start(trimmed))
  {
    var rest := AfterPrefix(trimmed, "members");
    if rest.Some? {
      var value := AfterPrefix(TrimStart(rest.value, SPACE), "=");
      if value.Some? {
        var list := AfterPrefix(TrimStart(value.value, SPACE), "[");
        if list.Some? {
          UpToStops(list.value, ']');
        }
      }
    }
  }

  /** No pattern is empty or padded, starts like a comment or holds a separator. */
  ghost predicate IsPattern(p: string) {
    p != [] && p[0] != '#' && ',' !in p && ']' !in p && Unpadded(p, SPACE)
  }

  ghost predicate ArePatterns(ps: seq<string>) {
    forall i :: 0 <= i < |ps| ==> IsPattern(ps[i])
  }

  lemma CleanShrinks(piece: string)
    ensures forall c :: c in Clean(piece) ==> c in piece
    ensures Unpadded(Clean(piece), SPACE)
  {
    TrimUnpads(Trim(Trim(Trim(piece, SPACE), DOUBLE_QUOTE), SINGLE_QUOTE), SPACE);
  }

  lemma {:induction false} KeptArePatterns(pieces: seq<string>)
    requires forall i :: 0 <= i < |pieces| ==> ',' !in pieces[i] && ']' !in pieces[i]
    ensures ArePatterns(Kept(pieces))
    ensures |Kept(pieces)| <= |pieces|
  {
    if pieces != [] {
      CleanShrinks(pieces[0]);
      KeptArePatterns(pieces[1..]);
    }
  }

  lemma {:induction false} SplitKeepsOut(s: string, sep: char, c: char)
    requires c !in s
    ensures forall i :: 0 <= i < |Split(s, sep)| ==> c !in Split(s, sep)[i]
  {
    if s != [] {
      SplitKeepsOut(s[1..], sep, c);
    }
  }

  lemma MembersArePatterns(content: string)
    ensures Members(content).Some? ==> Members(content).value != [] && ArePatterns(Members(content).value)
  {
    var lines := Lines(content);
    ReadHasNoBracket(Scanning(false), lines);
    var r := Read(Scanning(false), lines);
    if r.Closed? {
      SplitKeepsOut(r.block, ',', ']');
      SplitPieces(r.block, ',');
      KeptArePatterns(Split(r.block, ','));
    }
  }

  // ----- Reading back what was written -----

  /** How a name is quoted in the list. */
  function Quoted(name: string, quote: char): string {
    [quote] + name + [quote]
  }

  /** The names that survive being written in quotes and read back. */
  predicate IsPlain(name: string, quote: char) {
    && name != [] && name[0] != '#' && ',' !in name && ']' !in name
    && Unpadded(name, SPACE) && Unpadded(name, SINGLE_QUOTE) && (quote == '\"' ==> Unpadded(name, DOUBLE_QUOTE))
  }

  predicate IsQuote(quote: char) {
    quote == '\"' || quote == '\''
  }

  lemma CleanQuoted(a: string, name: string, quote: char, b: string)
    requires IsQuote(quote) && All(a, SPACE) && All(b, SPACE)
    ensures Clean(a + Quoted(name, quote) + b)
         == Trim(Trim(if quote == '\"' then Trim(name, DOUBLE_QUOTE) else name, SINGLE_QUOTE), SPACE)
  {
    var quoted := Quoted(name, quote);
    TrimPadding(a, quoted, b, SPACE);
    TrimUnpads(quoted, SPACE);
    TrimUnpads(quoted, DOUBLE_QUOTE);
    if quote == '\"' {
      TrimPadding([quote], name, [quote], DOUBLE_QUOTE);
    } else {
      TrimPadding([quote], name, [quote], SINGLE_QUOTE);
    }
  }

  /** A quoted name is read back exactly when nothing at its ends looks like a quote or space. */
  lemma CleanRestoresIff(a: string, name: string, quote: char, b: string)
    requires IsQuote(quote) && All(a, SPACE) && All(b, SPACE)
    ensures Clean(a + Quoted(name, quote) + b) == name <==>
      Unpadded(name, SPACE) && Unpadded(name, SINGLE_QUOTE) && (quote == '\"' ==> Unpadded(name, DOUBLE_QUOTE))
  {
    CleanQuoted(a, name, quote, b);
    var inner := if quote == '\"' then Trim(name, DOUBLE_QUOTE) else name;
    TrimUnpads(name, DOUBLE_QUOTE);
    TrimUnpads(name, SINGLE_QUOTE);
    TrimUnpads(name, SPACE);
    TrimUnpads(inner, SINGLE_QUOTE);
    TrimUnpads(Trim(inner, SINGLE_QUOTE), SPACE);
  }

  /** The pieces of the list, each with the same space around the quoted name. */
  function Items(names: seq<string>, a: string, quote: char, b: string): (r: seq<string>)
    ensures |r| == |names|
  {
    if names == [] then [] else [a + Quoted(names[0], quote) + b] + Items(names[1..], a, quote, b)
  }

  function OneLine(names: seq<string>, a: string, quote: char, b: string): string {
    "members = [" + Join(Items(names, a, quote, b), ',') + "]"
  }

  predicate NoSeparator(names: seq<string>) {
    forall i :: 0 <= i < |names| ==> ',' !in names[i] && ']' !in names[i]
  }

  lemma {:induction false} KeptRestoresIff(names: seq<string>, a: string, quote: char, b: string)
    requires IsQuote(quote) && All(a, SPACE) && All(b, SPACE) && NoSeparator(names)
    ensures Kept(Items(names, a, quote, b)) == names <==> forall i :: 0 <= i < |names| ==> IsPlain(names[i], quote)
    ensures |Kept(Items(names, a, quote, b))| <= |names|
  {
    if names != [] {
      var items, rest := Items(names, a, quote, b), Items(names[1..], a, quote, b);
      assert items[1..] == rest;
      KeptRestoresIff(names[1..], a, quote, b);
      CleanRestoresIff(a, names[0], quote, b);
      var p := Clean(items[0]);
      var first := if p != [] && p[0] != '#' then [p] else [];
      assert IsPlain(names[0], quote) <==> first == [names[0]];
      assert Kept(items) == first + Kept(rest);
      hide Clean;
      hide Kept;
      hide IsPlain;
      FirstAndRest(first, Kept(rest), names);
    }
  }

  lemma FirstAndRest(first: seq<string>, rest: seq<string>, names: seq<string>)
    requires names != [] && |first| <= 1 && |rest| <= |names| - 1
    ensures first + rest == names <==> first == [names[0]] && rest == names[1..]
  {
    assert names == [names[0]] + names[1..];
    if |first| == 1 {
      assert (first + rest)[0] == first[0] && (first + rest)[1..] == rest;
    }
  }

  /** Nothing before the workspace section opens it, whatever else it says. */
  predicate IsOther(line: string) {
    Trim(line, SPACE) != "[workspace]"
  }

  /** A line of the workspace section that does not start the list. */
  predicate IsBetween(line: string) {
    !IsHeader(Trim(line, SPACE)) && !("members" <= Trim(line, SPACE))
  }

  lemma {:induction false} ReadOther(before: seq<string>)
    requires forall i :: 0 <= i < |before| ==> IsOther(before[i])
    ensures Read(Scanning(false), before) == Scanning(false)
    decreases |before|
  {
    if before != [] {
      ReadOther(before[1..]);
    }
  }

  lemma {:induction false} ReadBetween(between: seq<string>)
    requires forall i :: 0 <= i < |between| ==> IsBetween(between[i])
    ensures Read(Scanning(true), between) == Scanning(true)
    decreases |between|
  {
    if between != [] {
      ReadBetween(between[1..]);
    }
  }

  /** A file with a workspace section. */
  function Manifest(before: seq<string>, between: seq<string>, list: seq<string>): seq<string> {
    before + (["[workspace]"] + (between + list))
  }

  lemma ReadManifest(before: seq<string>, between: seq<string>, list: seq<string>)
    requires forall i :: 0 <= i < |before| ==> IsOther(before[i])
    requires forall i :: 0 <= i < |between| ==> IsBetween(between[i])
    ensures Read(Scanning(false), Manifest(before, between, list)) == Read(Scanning(true), list)
  {
    var header, rest := "[workspace]", between + list;
    ReadOther(before);
    ReadBetween(between);
    HeaderOpens();
    hide *;
    ReadAppend(Scanning(false), before, [header] + rest);
    ReadOne(Scanning(false), header, rest);
    ReadAppend(Scanning(true), between, list);
  }

  lemma HeaderOpens()
    ensures Step(Scanning(false), "[workspace]") == Scanning(true)
    ensures forall before, between, list: seq<string> ::
      Manifest(before, between, list) == before + (["[workspace]"] + (between + list))
  {
    var header := "[workspace]";
    assert header[0] == '[' && header[10] == ']';
    TrimUnpads(header, SPACE);
    hide Trim;
  }

  lemma {:induction false} UpToAfter(x: string, c: char, t: string)
    requires c !in x
    ensures UpTo(x + [c] + t, c) == Some(x)
  {
    if x != [] {
      assert (x + [c] + t)[1..] == x[1..] + [c] + t;
      UpToAfter(x[1..], c, t);
      assert x == [x[0]] + x[1..];
    }
  }

  /** The line that opens the list, as far as its bracket. */
  lemma OpeningLine(list: string)
    ensures Start("members = [" + list) == match UpTo(list, ']')
      case Some(block) => Closed(block)
      case None => Collecting(list + "\n")
  {
    OpeningParts(list);
    var bracket := "[" + list;
    var value := " " + bracket;
    var equals := "=" + value;
    PrefixComesOff("members", " " + equals);
    SpaceComesOff(equals);
    PrefixComesOff("=", value);
    SpaceComesOff(bracket);
    PrefixComesOff("[", list);
    hide AfterPrefix;
    hide TrimStart;
    hide UpTo;
  }

  lemma OpeningParts(list: string)
    ensures "members = [" + list == "members" + (" " + ("=" + (" " + ("[" + list))))
    ensures ("=" + (" " + ("[" + list)))[0] == '=' && ("[" + list)[0] == '['
  {
    assert "members = [" == "members" + " = [";
  }

  lemma PrefixComesOff(prefix: string, s: string)
    ensures AfterPrefix(prefix + s, prefix) == Some(s)
  {
  }

  lemma SpaceComesOff(s: string)
    requires s != [] && !IsSpace(s[0])
    ensures TrimStart(" " + s, SPACE) == s
  {
    assert (" " + s)[1..] == s;
  }

  lemma {:induction false} ItemsKeepOut(names: seq<string>, a: string, quote: char, b: string, c: char)
    requires IsQuote(quote) && All(a, SPACE) && All(b, SPACE) && NoSeparator(names) && (c == ',' || c == ']')
    ensures forall i :: 0 <= i < |names| ==> c !in Items(names, a, quote, b)[i]
  {
    if names != [] {
      ItemsKeepOut(names[1..], a, quote, b, c);
      assert c !in a && c !in b;
    }
  }

  lemma OneLineRead(names: seq<string>, a: string, quote: char, b: string, after: seq<string>)
    requires IsQuote(quote) && All(a, SPACE) && All(b, SPACE) && NoSeparator(names)
    ensures Read(Scanning(true), [OneLine(names, a, quote, b)] + after) == Closed(Join(Items(names, a, quote, b), ','))
  {
    var x, line := Join(Items(names, a, quote, b), ','), OneLine(names, a, quote, b);
    ItemsKeepOut(names, a, quote, b, ']');
    JoinWithout(Items(names, a, quote, b), ',', ']');
    assert line == "members = [" + (x + "]");
    assert line[0] == 'm' && line[|line| - 1] == ']';
    TrimUnpads(line, SPACE);
    OpeningLine(x + "]");
    UpToAfter(x, ']', []);
    assert x + [']'] + [] == x + "]";
    assert Step(Scanning(true), line) == Closed(x);
    assert ([line] + after)[1..] == after;
    ReadEnds(Closed(x), after);
  }

  /** A file with these lines is read line by line, whatever its line ends. */
  lemma FileIsReadByLines(lines: seq<string>)
    requires AreLines(lines)
    ensures Members(Unlines(lines)) == MembersIn(lines)
  {
    LinesOfUnlines(lines);
    ReadWithoutReturns(Scanning(false), lines);
  }

  lemma {:induction false} ReadWithoutReturns(r: Reader, lines: seq<string>)
    ensures Read(r, StripReturns(lines)) == Read(r, lines)
    decreases |lines|
  {
    if lines != [] {
      var line := lines[0];
      if line != [] && line[|line| - 1] == '\r' {
        TrimWithoutLast(line, SPACE);
      }
      assert Step(r, StripReturn(line)) == Step(r, line);
      ReadWithoutReturns(Step(r, line), lines[1..]);
      assert StripReturns(lines)[1..] == StripReturns(lines[1..]);
    }
  }

  lemma MembersOfBlock(lines: seq<string>, block: string, names: seq<string>)
    requires Read(Scanning(false), lines) == Closed(block)
    ensures MembersIn(lines) == Some(names) <==> names != [] && Patterns(block) == names
  {
  }

  ghost predicate ArePlain(names: seq<string>, quote: char) {
    forall i :: 0 <= i < |names| ==> IsPlain(names[i], quote)
  }

  /** The lines around the list and the padding within it. */
  ghost predicate Surrounds(before: seq<string>, between: seq<string>, after: seq<string>) {
    && AreLines(before) && (forall i :: 0 <= i < |before| ==> IsOther(before[i]))
    && AreLines(between) && (forall i :: 0 <= i < |between| ==> IsBetween(between[i]))
    && AreLines(after)
  }

  predicate IsPadding(a: string) {
    All(a, SPACE) && '\n' !in a
  }

  lemma ManifestIsLines(before: seq<string>, between: seq<string>, list: seq<string>, after: seq<string>)
    requires Surrounds(before, between, after) && AreLines(list)
    ensures AreLines(Manifest(before, between, list + after))
  {
  }

  lemma {:induction false} ItemsAreLines(names: seq<string>, a: string, quote: char, b: string)
    requires AreLines(names) && IsPadding(a) && IsPadding(b) && IsQuote(quote)
    ensures AreLines(Items(names, a, quote, b))
  {
    if names != [] {
      ItemsAreLines(names[1..], a, quote, b);
    }
  }

  /** The members a file lists on one line are read back exactly when every name is plain. */
  lemma OneLineRoundTripIff(before: seq<string>, between: seq<string>, names: seq<string>, a: string, quote: char,
                            b: string, after: seq<string>)
    requires Surrounds(before, between, after) && AreLines(names)
    requires IsQuote(quote) && IsPadding(a) && IsPadding(b)
    ensures Members(Unlines(Manifest(before, between, [OneLine(names, a, quote, b)] + after))) == Some(names)
       <==> names != [] && ArePlain(names, quote)
  {
    var line := OneLine(names, a, quote, b);
    var lines := Manifest(before, between, [line] + after);
    var items := Items(names, a, quote, b);
    ItemsAreLines(names, a, quote, b);
    JoinWithout(items, ',', '\n');
    ManifestIsLines(before, between, [line], after);
    FileIsReadByLines(lines);
    MembersArePatterns(Unlines(lines));
    hide Members;
    hide MembersIn;
    PlainHaveNoSeparator(names, quote);
    if NoSeparator(names) {
      ReadManifest(before, between, [line] + after);
      OneLineRead(names, a, quote, b, after);
      KeptRestoresIff(names, a, quote, b);
      MembersOfBlock(lines, Join(items, ','), names);
      if names != [] {
        ItemsKeepOut(names, a, quote, b, ',');
        SplitJoin(items, ',');
      }
    }
  }

  lemma PlainHaveNoSeparator(names: seq<string>, quote: char)
    ensures ArePlain(names, quote) ==> NoSeparator(names)
    ensures ArePatterns(names) ==> NoSeparator(names)
  {
  }

  // ----- Where the workspace section ends -----

  /** What another section lists is not read, whatever it says, unless a workspace section opens again. */
  lemma LaterSectionIsNotRead(before: seq<string>, between: seq<string>, header: string, after: seq<string>)
    requires Surrounds(before, between, after) && '\n' !in header
    requires IsHeader(Trim(header, SPACE)) && IsOther(header) && forall i :: 0 <= i < |after| ==> IsOther(after[i])
    ensures Members(Unlines(Manifest(before, between, [header] + after))) == None
  {
    var lines := Manifest(before, between, [header] + after);
    assert AreLines([header]);
    ManifestIsLines(before, between, [header], after);
    FileIsReadByLines(lines);
    ReadManifest(before, between, [header] + after);
    assert Step(Scanning(true), header) == Scanning(false);
    ReadOne(Scanning(true), header, after);
    ReadOther(after);
    assert MembersIn(lines) == None by {
      assert Read(Scanning(false), lines) == Scanning(false);
    }
    hide *;
  }

  /** A section header is a line in brackets. */
  lemma HeaderIs(name: string)
    requires Unpadded(name, SPACE)
    ensures IsHeader(Trim("[" + name + "]", SPACE))
  {
    assert ("[" + name + "]")[0] == '[';
    TrimUnpads("[" + name + "]", SPACE);
  }

  /** Without a workspace section nothing is read. */
  lemma NoSectionNothingRead(lines: seq<string>)
    requires AreLines(lines) && forall i :: 0 <= i < |lines| ==> IsOther(lines[i])
    ensures Members(Unlines(lines)) == None
  {
    FileIsReadByLines(lines);
    ReadOther(lines);
    hide Members;
    hide Lines;
  }

  // ----- Lines of the section that look like the list -----

  /** The line goes on from `members` with this text. */
  predicate StartsMembers(line: string, rest: string) {
    Trim(line, SPACE) == "members" + rest && !IsHeader(Trim(line, SPACE))
  }

  /** A key that only begins with `members` hides the list behind it, and the workspace with it. */
  lemma LongerKeyHidesTheWorkspace(before: seq<string>, between: seq<string>, line: string, rest: string,
                                   after: seq<string>)
    requires Surrounds(before, between, after) && '\n' !in line
    requires StartsMembers(line, rest) && !("=" <= TrimStart(rest, SPACE))
    ensures Members(Unlines(Manifest(before, between, [line] + after))) == None
  {
    assert AreLines([line]);
    ManifestIsLines(before, between, [line], after);
    FileIsReadByLines(Manifest(before, between, [line] + after));
    ReadManifest(before, between, [line] + after);
    ReadOne(Scanning(true), line, after);
    StartOfMembers(line, rest);
    ReadEnds(Failed, after);
    hide *;
    NothingRead(Manifest(before, between, [line] + after));
  }

  lemma NothingRead(lines: seq<string>)
    requires Read(Scanning(false), lines) == Failed
    ensures MembersIn(lines) == None
  {
  }

  lemma StartOfMembers(line: string, rest: string)
    requires StartsMembers(line, rest)
    ensures "members" <= Trim(line, SPACE)
    ensures !("=" <= TrimStart(rest, SPACE)) ==> Step(Scanning(true), line) == Failed
    ensures forall value :: TrimStart(rest, SPACE) == "=" + value && !("[" <= TrimStart(value, SPACE)) ==>
      Step(Scanning(true), line) == Scanning(true)
  {
    assert ("members" + rest)[7..] == rest;
    hide Trim;
    hide TrimStart;
    forall value | TrimStart(rest, SPACE) == "=" + value ensures TrimStart(rest, SPACE)[1..] == value {
    }
  }

  /** A value that is no list is passed over: what follows is read as if the line were not there. */
  lemma OtherValueIsPassedOver(before: seq<string>, between: seq<string>, line: string, rest: string, value: string,
                               after: seq<string>)
    requires Surrounds(before, between, after) && '\n' !in line
    requires StartsMembers(line, rest)
    requires TrimStart(rest, SPACE) == "=" + value && !("[" <= TrimStart(value, SPACE))
    ensures Members(Unlines(Manifest(before, between, [line] + after)))
         == Members(Unlines(Manifest(before, between, after)))
  {
    assert AreLines([line]) && AreLines([]) && [] + after == after;
    ManifestIsLines(before, between, [line], after);
    ManifestIsLines(before, between, [], after);
    FileIsReadByLines(Manifest(before, between, [line] + after));
    FileIsReadByLines(Manifest(before, between, after));
    ReadManifest(before, between, [line] + after);
    ReadManifest(before, between, after);
    ReadOne(Scanning(true), line, after);
    StartOfMembers(line, rest);
    hide *;
    ReadAlike(Manifest(before, between, [line] + after), Manifest(before, between, after));
  }

  lemma ReadAlike(a: seq<string>, b: seq<string>)
    requires Read(Scanning(false), a) == Read(Scanning(false), b)
    ensures MembersIn(a) == MembersIn(b)
  {
  }
}
