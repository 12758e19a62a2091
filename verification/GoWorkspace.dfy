/** The hand-written reader of a Go workspace file, and what it reads back. */
module GoWorkspace {
  import opened Sequences
  import opened Options
  import opened Splitting
  import opened Trimming
  import CargoWorkspace

  const SPACE: Test := CargoWorkspace.SPACE
  const QUOTE: Test := CargoWorkspace.DOUBLE_QUOTE

  function Clean(text: string): string {
    Trim(Trim(text, QUOTE), SPACE)
  }

  datatype Reader = Reader(inUse: bool, patterns: seq<string>)

  function Push(r: Reader, text: string): Reader {
    if Clean(text) == [] then r else r.(patterns := r.patterns + [Clean(text)])
  }

  /** One line. */
  function Step(r: Reader, line: string): Reader {
    var trimmed := Trim(line, SPACE);
    if trimmed == [] || "//" <= trimmed then r
    else if r.inUse then
      if trimmed == ")" then r.(inUse := false) else Push(r, trimmed)
    else if "use" <= trimmed then
      var rest := TrimStart(trimmed[3..], SPACE);
      if rest == "(" || rest == [] then r.(inUse := rest == "(") else Push(r, rest)
    else r
  }

  function Read(r: Reader, lines: seq<string>): Reader
    decreases |lines|
  {
    if lines == [] then r else Read(Step(r, lines[0]), lines[1..])
  }

  function MembersIn(lines: seq<string>): Option<seq<string>> {
    var patterns := Read(Reader(false, []), lines).patterns;
    if patterns == [] then None else Some(patterns)
  }

  function Members(content: string): Option<seq<string>> {
    MembersIn(Lines(content))
  }

  /** The program's reader, line by line. */
  method ProbeGoWork(content: string) returns (r: Option<seq<string>>)
    ensures r == Members(content)
  {
    var lines := Lines(content);
    hide Trim;
    hide Clean;
    var patterns: seq<string> := [];
    var inUseBlock := false;
    var i := 0;
    while i < |lines|
      invariant 0 <= i <= |lines|
      invariant Read(Reader(false, []), lines) == Read(Reader(inUseBlock, patterns), lines[i..])
    {
      var trimmed := Trim(lines[i], SPACE);
      i := i + 1;
      if trimmed == [] || "//" <= trimmed {
        continue;
      }
      if inUseBlock {
        if trimmed == ")" {
          inUseBlock := false;
          continue;
        }
        var p := Clean(trimmed);
        if p != [] {
          patterns := patterns + [p];
        }
        continue;
      }
      if "use" <= trimmed {
        var rest := TrimStart(trimmed[3..], SPACE);
        if rest == "(" || rest == [] {
          inUseBlock := rest == "(";
          continue;
        }
        var p := Clean(rest);
        if p != [] {
          patterns := patterns + [p];
        }
      }
    }
    r := if patterns == [] then None else Some(patterns);
  }

  lemma {:induction false} ReadAppend(r: Reader, a: seq<string>, b: seq<string>)
    ensures Read(r, a + b) == Read(Read(r, a), b)
    decreases |a|
  {
    if a == [] {
      assert a + b == b;
    } else {
      assert (a + b)[1..] == a[1..] + b;
      ReadAppend(Step(r, a[0]), a[1..], b);
    }
  }

  // ----- Reading back what was written -----

  /** How a member is written, with or without quotes. */
  function Written(name: string, quoted: bool): string {
    if quoted then "\"" + name + "\"" else name
  }

  /** One directive for each member. */
  function Directives(names: seq<string>, quoted: bool): seq<string> {
    if names == [] then [] else ["use " + Written(names[0], quoted)] + Directives(names[1..], quoted)
  }

  function BlockLines(names: seq<string>, indent: string, quoted: bool): seq<string> {
    if names == [] then [] else [indent + Written(names[0], quoted)] + BlockLines(names[1..], indent, quoted)
  }

  /** One directive with all members. */
  function UseBlock(names: seq<string>, indent: string, quoted: bool): seq<string> {
    ["use ("] + (BlockLines(names, indent, quoted) + [")"])
  }

  predicate IsPlain(name: string) {
    name != [] && Unpadded(name, SPACE) && Unpadded(name, QUOTE)
  }

  /** The names that survive a directive of their own. */
  predicate PlainAlone(name: string, quoted: bool) {
    IsPlain(name) && (!quoted ==> name != "(")
  }

  /** The names that survive in a block. */
  predicate PlainInBlock(name: string, quoted: bool) {
    IsPlain(name) && (!quoted ==> name != ")" && !("//" <= name))
  }

  lemma CleanWritten(name: string, quoted: bool)
    ensures Clean(Written(name, quoted)) == Clean(name)
    ensures Clean(name) == name <==> Unpadded(name, SPACE) && Unpadded(name, QUOTE)
  {
    TrimPadding("\"", name, "\"", QUOTE);
    TrimUnpads(name, QUOTE);
    TrimUnpads(Trim(name, QUOTE), SPACE);
    TrimUnpads(name, SPACE);
  }

  /** What pushing a text adds to the patterns. */
  lemma PushAdds(r: Reader, text: string, name: string)
    ensures var s := Push(r, text);
      && s.inUse == r.inUse && r.patterns <= s.patterns && |s.patterns| <= |r.patterns| + 1
      && (s == r.(patterns := r.patterns + [name]) <==> Clean(text) == name && name != [])
    ensures Unpadded(Clean(text), SPACE) && r != r.(patterns := r.patterns + [name])
  {
    TrimUnpads(Trim(text, QUOTE), SPACE);
    assert (r.patterns + [Clean(text)])[|r.patterns|] == Clean(text);
    assert (r.patterns + [name])[|r.patterns|] == name;
    hide Trim;
  }

  /** What one line of a block does to the reader. */
  lemma BlockLineStep(r: Reader, name: string, indent: string, quoted: bool)
    requires r.inUse && All(indent, SPACE)
    ensures var s := Step(r, indent + Written(name, quoted));
      && r.patterns <= s.patterns && |s.patterns| <= |r.patterns| + 1
      && (PlainInBlock(name, quoted) <==> s == Reader(true, r.patterns + [name]))
      && (|s.patterns| > |r.patterns| ==> s.inUse)
  {
    var text := Written(name, quoted);
    TrimPadding(indent, text, [], SPACE);
    assert indent + text + [] == indent + text;
    PushAdds(r, Trim(text, SPACE), name);
    TrimUnpads(text, SPACE);
    CleanWritten(name, quoted);
    QuotedStarts(name);
    hide Clean;
    hide Trim;
    hide Push;
  }

  lemma QuotedStarts(name: string)
    ensures var text := Written(name, true);
      && Unpadded(text, SPACE) && text != [] && text != ")" && text != "(" && !("//" <= text)
    ensures name != [] && Unpadded(name, SPACE) ==> Unpadded(Written(name, false), SPACE)
  {
    assert Written(name, true)[0] == '\"';
  }

  /** What one directive does to the reader. */
  lemma DirectiveStep(r: Reader, name: string, quoted: bool)
    requires !r.inUse
    ensures var s := Step(r, "use " + Written(name, quoted));
      && r.patterns <= s.patterns && |s.patterns| <= |r.patterns| + 1
      && (PlainAlone(name, quoted) <==> s == Reader(false, r.patterns + [name]))
      && (|s.patterns| > |r.patterns| ==> !s.inUse)
  {
    var text := Written(name, quoted);
    var rest := Trim(text, SPACE);
    DirectiveTrims(text);
    PushAdds(r, rest, name);
    TrimUnpads(text, SPACE);
    CleanWritten(name, quoted);
    QuotedStarts(name);
    hide Clean;
    hide Trim;
    hide Push;
    hide TrimStart;
  }

  lemma DirectiveTrims(text: string)
    ensures var trimmed := Trim("use " + text, SPACE);
      trimmed != [] && !("//" <= trimmed) && "use" <= trimmed && TrimStart(trimmed[3..], SPACE) == Trim(text, SPACE)
  {
    if All(text, SPACE) {
      EmptyDirective(text);
    } else {
      var kept := TrimEnd(text, SPACE);
      TrimEndAfter("use ", text, SPACE);
      TrimCommutes(text, SPACE);
      TrimStartDrops(" ", kept, SPACE);
      hide TrimEnd;
      AfterUse(kept);
      assert Trim("use " + text, SPACE) == "use " + kept by {
        TrimStartsAtUse(text);
      }
      hide Trim;
      hide TrimStart;
    }
  }

  lemma TrimStartsAtUse(text: string)
    ensures TrimStart("use " + text, SPACE) == "use " + text
  {
    assert ("use " + text)[0] == 'u';
  }

  lemma AfterUse(kept: string)
    ensures var trimmed := "use " + kept;
      trimmed != [] && !("//" <= trimmed) && "use" <= trimmed && trimmed[3..] == " " + kept
  {
    assert ("use " + kept)[0] == 'u';
  }

  lemma EmptyDirective(text: string)
    requires All(text, SPACE)
    ensures Trim("use " + text, SPACE) == "use" && TrimStart("use"[3..], SPACE) == [] == Trim(text, SPACE)
    ensures "use" <= "use" && !("//" <= "use")
  {
    TrimPadding([], "use", " " + text, SPACE);
    assert [] + "use" + (" " + text) == "use " + text;
    TrimUnpads("use", SPACE);
    TrimPadding(text, [], [], SPACE);
    assert text + [] + [] == text;
    assert "use"[0] == 'u' && "use"[3..] == [];
  }

  lemma StepGrows(r: Reader, line: string)
    ensures r.patterns <= Step(r, line).patterns && |Step(r, line).patterns| <= |r.patterns| + 1
  {
  }

  lemma {:induction false} ReadGrows(r: Reader, lines: seq<string>)
    ensures r.patterns <= Read(r, lines).patterns && |Read(r, lines).patterns| <= |r.patterns| + |lines|
    decreases |lines|
  {
    if lines != [] {
      StepGrows(r, lines[0]);
      ReadGrows(Step(r, lines[0]), lines[1..]);
    }
  }

  /** One line that yields exactly its name, and the rest. */
  lemma FirstAndRest(r: Reader, s: Reader, last: Reader, names: seq<string>)
    requires names != [] && r.patterns <= s.patterns <= last.patterns
    requires |s.patterns| <= |r.patterns| + 1 && |last.patterns| <= |s.patterns| + |names| - 1
    ensures last.patterns == r.patterns + names <==>
      s.patterns == r.patterns + [names[0]] && last.patterns == s.patterns + names[1..]
  {
    assert names == [names[0]] + names[1..];
    if last.patterns == r.patterns + names {
      assert s.patterns == last.patterns[..|s.patterns|];
    }
  }

  lemma {:induction false} DirectivesRead(r: Reader, names: seq<string>, quoted: bool)
    requires !r.inUse
    ensures var s := Read(r, Directives(names, quoted));
      && (s.patterns == r.patterns + names <==> forall i :: 0 <= i < |names| ==> PlainAlone(names[i], quoted))
      && (s.patterns == r.patterns + names ==> !s.inUse)
    ensures |Directives(names, quoted)| == |names|
    decreases |names|
  {
    if names != [] {
      var lines := Directives(names, quoted);
      var s := Step(r, lines[0]);
      assert lines[1..] == Directives(names[1..], quoted);
      DirectiveStep(r, names[0], quoted);
      if !s.inUse {
        DirectivesRead(s, names[1..], quoted);
      }
      DirectiveCount(names, quoted);
      ReadGrows(s, lines[1..]);
      hide Step;
      hide PlainAlone;
      FirstAndRest(r, s, Read(s, lines[1..]), names);
    }
  }

  lemma {:induction false} DirectiveCount(names: seq<string>, quoted: bool)
    ensures |Directives(names, quoted)| == |names|
  {
    if names != [] {
      DirectiveCount(names[1..], quoted);
    }
  }

  lemma {:induction false} BlockLineCount(names: seq<string>, indent: string, quoted: bool)
    ensures |BlockLines(names, indent, quoted)| == |names|
  {
    if names != [] {
      BlockLineCount(names[1..], indent, quoted);
    }
  }

  lemma {:induction false} BlockLinesRead(r: Reader, names: seq<string>, indent: string, quoted: bool)
    requires r.inUse && All(indent, SPACE)
    ensures var s := Read(r, BlockLines(names, indent, quoted));
      && (s.patterns == r.patterns + names <==> forall i :: 0 <= i < |names| ==> PlainInBlock(names[i], quoted))
      && (s.patterns == r.patterns + names ==> s.inUse)
    decreases |names|
  {
    if names != [] {
      var lines := BlockLines(names, indent, quoted);
      var s := Step(r, lines[0]);
      assert lines[1..] == BlockLines(names[1..], indent, quoted);
      BlockLineStep(r, names[0], indent, quoted);
      if s.inUse {
        BlockLinesRead(s, names[1..], indent, quoted);
      }
      BlockLineCount(names, indent, quoted);
      ReadGrows(s, lines[1..]);
      hide Step;
      hide PlainInBlock;
      FirstAndRest(r, s, Read(s, lines[1..]), names);
    }
  }

  /** A line that says nothing about members outside a block. */
  predicate IsOther(line: string) {
    !("use" <= Trim(line, SPACE))
  }

  lemma {:induction false} ReadOther(r: Reader, lines: seq<string>)
    requires !r.inUse && forall i :: 0 <= i < |lines| ==> IsOther(lines[i])
    ensures Read(r, lines) == r
    decreases |lines|
  {
    if lines != [] {
      ReadOther(r, lines[1..]);
    }
  }

  ghost predicate AllOther(lines: seq<string>) {
    AreLines(lines) && forall i :: 0 <= i < |lines| ==> IsOther(lines[i])
  }

  /** A file with these lines is read line by line, whatever its line ends. */
  lemma FileIsReadByLines(lines: seq<string>)
    requires AreLines(lines)
    ensures Members(Unlines(lines)) == MembersIn(lines)
  {
    LinesOfUnlines(lines);
    ReadWithoutReturns(Reader(false, []), lines);
  }

  lemma {:induction false} ReadWithoutReturns(r: Reader, lines: seq<string>)
    ensures Read(r, StripReturns(lines)) == Read(r, lines)
    decreases |lines|
  {
    if lines != [] {
      var line := lines[0];
      if line != [] && line[|line| - 1] == '\r' {
        TrimWithoutLast(line, SPACE);
      }
      assert Step(r, StripReturn(line)) == Step(r, line);
      ReadWithoutReturns(Step(r, line), lines[1..]);
      assert StripReturns(lines)[1..] == StripReturns(lines[1..]);
    }
  }

  lemma {:induction false} DirectivesAreLines(names: seq<string>, quoted: bool)
    requires AreLines(names)
    ensures AreLines(Directives(names, quoted))
  {
    if names != [] {
      DirectivesAreLines(names[1..], quoted);
    }
  }

  lemma {:induction false} BlockIsLines(names: seq<string>, indent: string, quoted: bool)
    requires AreLines(names) && CargoWorkspace.IsPadding(indent)
    ensures AreLines(BlockLines(names, indent, quoted))
  {
    if names != [] {
      BlockIsLines(names[1..], indent, quoted);
    }
  }

  ghost predicate AllPlainAlone(names: seq<string>, quoted: bool) {
    forall i :: 0 <= i < |names| ==> PlainAlone(names[i], quoted)
  }

  ghost predicate AllPlainInBlock(names: seq<string>, quoted: bool) {
    forall i :: 0 <= i < |names| ==> PlainInBlock(names[i], quoted)
  }

  /** A name that reads as the parenthesis of a block. */
  predicate OpensBlock(name: string, quoted: bool) {
    !quoted && Trim(name, SPACE) == "("
  }

  lemma {:induction false} DirectivesStayOutside(r: Reader, names: seq<string>, quoted: bool)
    requires !r.inUse && forall i :: 0 <= i < |names| ==> !OpensBlock(names[i], quoted)
    ensures !Read(r, Directives(names, quoted)).inUse
    decreases |names|
  {
    if names != [] {
      var lines := Directives(names, quoted);
      assert lines[1..] == Directives(names[1..], quoted);
      DirectiveStaysOutside(r, names[0], quoted);
      DirectivesStayOutside(Step(r, lines[0]), names[1..], quoted);
    }
  }

  lemma DirectiveStaysOutside(r: Reader, name: string, quoted: bool)
    requires !r.inUse && !OpensBlock(name, quoted)
    ensures !Step(r, "use " + Written(name, quoted)).inUse
  {
    DirectiveTrims(Written(name, quoted));
    if quoted {
      TrimUnpads("\"" + name + "\"", SPACE);
      assert (Written(name, quoted))[0] == '\"';
    }
  }

  /**
   Directives with one member each are read back when every name is plain, whatever other lines follow; and only then,
   unless a name reads as the parenthesis of a block and lines follow.
   */
  lemma DirectivesRoundTripIff(before: seq<string>, names: seq<string>, quoted: bool, after: seq<string>)
    requires AllOther(before) && AllOther(after) && AreLines(names)
    ensures var restored := Members(Unlines(before + Directives(names, quoted) + after)) == Some(names);
      && (names != [] && AllPlainAlone(names, quoted) ==> restored)
      && (restored ==>
            || (names != [] && AllPlainAlone(names, quoted))
            || (after != [] && exists i :: 0 <= i < |names| && OpensBlock(names[i], quoted)))
  {
    var start, lines := Reader(false, []), Directives(names, quoted);
    DirectivesAreLines(names, quoted);
    FileIsReadByLines(before + lines + after);
    ReadOther(start, before);
    ReadAppend(start, before, lines);
    ReadAppend(start, before + lines, after);
    DirectivesRead(start, names, quoted);
    assert [] + names == names;
    var s := Read(start, before + lines);
    if AllPlainAlone(names, quoted) {
      ReadOther(s, after);
    } else if forall i :: 0 <= i < |names| ==> !OpensBlock(names[i], quoted) {
      DirectivesStayOutside(start, names, quoted);
      ReadOther(s, after);
    }
    hide PlainAlone;
    hide OpensBlock;
    hide Members;
  }

  // ----- Directives in front of other lines -----

  /** What lines give inside a block: one pattern a line, up to the closing parenthesis. */
  function AsBlock(lines: seq<string>): seq<string> {
    Read(Reader(true, []), lines).patterns
  }

  /** The last name reads as the parenthesis of a block, and the lines behind it give just that name. */
  ghost predicate BlockStandsIn(names: seq<string>, quoted: bool, after: seq<string>) {
    && !quoted && names != [] && names[|names| - 1] == "(" && AllPlainAlone(names[..|names| - 1], quoted)
    && AsBlock(after) == ["("]
  }

  ghost predicate NoQuotes(names: seq<string>) {
    forall i :: 0 <= i < |names| ==> '\"' !in names[i]
  }

  /** Every pattern that is read is one: not empty, and not padded. */
  ghost predicate ArePatterns(ps: seq<string>) {
    forall i :: 0 <= i < |ps| ==> ps[i] != [] && Unpadded(ps[i], SPACE)
  }

  lemma PushKeepsPatterns(r: Reader, text: string)
    requires ArePatterns(r.patterns)
    ensures ArePatterns(Push(r, text).patterns)
  {
    TrimUnpads(Trim(text, QUOTE), SPACE);
    hide Trim;
  }

  lemma {:induction false} ReadGivesPatterns(r: Reader, lines: seq<string>)
    requires ArePatterns(r.patterns)
    ensures ArePatterns(Read(r, lines).patterns)
    decreases |lines|
  {
    if lines != [] {
      var trimmed := Trim(lines[0], SPACE);
      PushKeepsPatterns(r, trimmed);
      if "use" <= trimmed {
        PushKeepsPatterns(r, TrimStart(trimmed[3..], SPACE));
      }
      assert ArePatterns(Step(r, lines[0]).patterns) by {
        hide Push;
        hide Trim;
        hide ArePatterns;
      }
      ReadGivesPatterns(Step(r, lines[0]), lines[1..]);
    }
  }

  /** What was read before stays in front, and has no say in what is read. */
  lemma StepShifts(r: Reader, s: Reader, line: string)
    requires r.inUse == s.inUse
    ensures Step(r, line).inUse == Step(s, line).inUse
    ensures exists more ::
      Step(r, line).patterns == r.patterns + more && Step(s, line).patterns == s.patterns + more
  {
    var trimmed := Trim(line, SPACE);
    var text := if r.inUse || !("use" <= trimmed) then trimmed else TrimStart(trimmed[3..], SPACE);
    var more := if Step(r, line).patterns == r.patterns then [] else [Clean(text)];
    assert r.patterns + [] == r.patterns && s.patterns + [] == s.patterns;
    assert |r.patterns + [Clean(text)]| != |r.patterns|;
    hide Trim;
    hide TrimStart;
    hide Clean;
    assert Step(r, line).patterns == r.patterns + more && Step(s, line).patterns == s.patterns + more;
  }

  lemma {:induction false} ReadShifts(r: Reader, before: seq<string>, lines: seq<string>)
    ensures Read(Reader(r.inUse, before + r.patterns), lines)
         == Reader(Read(r, lines).inUse, before + Read(r, lines).patterns)
    decreases |lines|
  {
    if lines != [] {
      var s := Reader(r.inUse, before + r.patterns);
      var r', s' := Step(r, lines[0]), Step(s, lines[0]);
      StepShifts(r, s, lines[0]);
      hide Step;
      var more :| r'.patterns == r.patterns + more && s'.patterns == s.patterns + more;
      Associative(before, r.patterns, more);
      assert s' == Reader(r'.inUse, before + r'.patterns);
      ReadShifts(r', before, lines[1..]);
    }
  }

  /** A directive that is read inside a block becomes a pattern that starts like a directive. */
  lemma DirectiveInBlock(patterns: seq<string>, name: string)
    ensures var s := Step(Reader(true, patterns), "use " + name);
      |s.patterns| == |patterns| + 1 && patterns < s.patterns
      && s.patterns[|patterns|] != [] && s.patterns[|patterns|][0] == 'u'
  {
    var line := "use " + name;
    assert line[0] == 'u';
    TrimKeepsHead(line, SPACE);
    var t := Trim(line, SPACE);
    TrimKeepsHead(t, QUOTE);
    TrimKeepsHead(Trim(t, QUOTE), SPACE);
    assert Clean(t)[0] == 'u';
    hide Trim;
    hide Clean;
  }

  lemma OpensStep(r: Reader, name: string)
    requires !r.inUse && OpensBlock(name, false)
    ensures Step(r, "use " + Written(name, false)) == r.(inUse := true)
  {
    DirectiveTrims(name);
    hide Trim;
  }

  /** Names that are patterns and hold no quotes are each read as one, unless they open a block. */
  lemma {:induction false} PatternsArePlain(names: seq<string>)
    requires ArePatterns(names) && NoQuotes(names)
    requires forall i :: 0 <= i < |names| ==> !OpensBlock(names[i], false)
    ensures AllPlainAlone(names, false)
  {
    forall i | 0 <= i < |names| ensures PlainAlone(names[i], false) {
      var name := names[i];
      assert name[0] in name && name[|name| - 1] in name;
      TrimUnpads(name, SPACE);
    }
  }

  /** The first name that opens a block. */
  lemma {:induction false} FirstOpening(names: seq<string>, i: nat) returns (j: nat)
    requires i < |names| && OpensBlock(names[i], false)
    ensures j < |names| && OpensBlock(names[j], false) && forall k :: 0 <= k < j ==> !OpensBlock(names[k], false)
  {
    if k :| 0 <= k < i && OpensBlock(names[k], false) {
      j := FirstOpening(names, k);
    } else {
      j := i;
    }
  }

  lemma {:induction false} DirectivesSplit(names: seq<string>, quoted: bool, j: nat)
    requires j <= |names|
    ensures Directives(names, quoted) == Directives(names[..j], quoted) + Directives(names[j..], quoted)
  {
    if j > 0 {
      DirectivesSplit(names[1..], quoted, j - 1);
      assert names[..j][1..] == names[1..][..j - 1] && names[j..] == names[1..][j - 1..];
    } else {
      assert names[..0] == [] && names[0..] == names;
    }
  }

  /** What is read of directives whose names up to one that opens a block are plain. */
  lemma OpenedRead(names: seq<string>, j: nat, after: seq<string>)
    requires j < |names| && OpensBlock(names[j], false) && AllPlainAlone(names[..j], false)
    ensures Read(Reader(false, []), Directives(names, false) + after).patterns
         == names[..j] + AsBlock(Directives(names[j + 1..], false) + after)
  {
    var start, pre, rest := Reader(false, []), Directives(names[..j], false), Directives(names[j + 1..], false) + after;
    var line := "use " + Written(names[j], false);
    var r := Read(start, pre);
    DirectivesRead(start, names[..j], false);
    OpensStep(r, names[j]);
    hide *;
    DirectivesAround(names, j, after);
    NothingBefore(names[..j]);
    ReadAppend(start, pre, [line] + rest);
    ReadLine(r, line, rest);
    ReadShifts(Reader(true, []), names[..j], rest);
    BlockIs(rest);
  }

  lemma NothingBefore(names: seq<string>)
    ensures [] + names == names == names + []
  {
  }

  lemma DirectivesAround(names: seq<string>, j: nat, after: seq<string>)
    requires j < |names|
    ensures Directives(names, false) + after == Directives(names[..j], false)
      + (["use " + Written(names[j], false)] + (Directives(names[j + 1..], false) + after))
  {
    DirectivesSplit(names, false, j);
    DirectivesFrom(names, j);
    hide *;
    Regrouped(Directives(names[..j], false), ["use " + Written(names[j], false)], Directives(names[j + 1..], false),
              after);
  }

  lemma DirectivesFrom(names: seq<string>, j: nat)
    requires j < |names|
    ensures Directives(names[j..], false) == ["use " + Written(names[j], false)] + Directives(names[j + 1..], false)
  {
    DropOne(names, j);
    hide Written;
  }

  lemma Regrouped(a: seq<string>, b: seq<string>, c: seq<string>, d: seq<string>)
    ensures a + (b + c) + d == a + (b + (c + d))
  {
  }

  lemma BlockIs(lines: seq<string>)
    ensures AsBlock(lines) == Read(Reader(true, []), lines).patterns
  {
  }

  lemma ReadLine(r: Reader, line: string, rest: seq<string>)
    ensures Read(r, [line] + rest) == Read(Step(r, line), rest)
  {
    TailOfCons(line, rest);
    hide Step;
  }

  /** Read inside a block, directives start like directives. */
  lemma BlockOfDirectives(names: seq<string>, after: seq<string>)
    requires names != []
    ensures var ps := AsBlock(Directives(names, false) + after); ps != [] && ps[0] != [] && ps[0][0] == 'u'
  {
    var line, rest := "use " + names[0], Directives(names[1..], false);
    var s := Step(Reader(true, []), line);
    DirectiveInBlock([], names[0]);
    assert Directives(names, false) == [line] + rest;
    hide *;
    Associative([line], rest, after);
    ReadLine(Reader(true, []), line, rest + after);
    ReadGrows(s, rest + after);
    BlockIs(Directives(names, false) + after);
  }

  /** Behind a name that opens a block no directive can restore it. */
  lemma NoDirectiveStandsIn(names: seq<string>, j: nat, after: seq<string>)
    requires j + 1 < |names| && OpensBlock(names[j], false)
    ensures AsBlock(Directives(names[j + 1..], false) + after) != names[j..]
  {
    var block := AsBlock(Directives(names[j + 1..], false) + after);
    BlockOfDirectives(names[j + 1..], after);
    StartsOtherwise(names[j], block[0]);
    hide *;
  }

  lemma StartsOtherwise(name: string, other: string)
    requires OpensBlock(name, false) && other != [] && other[0] == 'u'
    ensures name != other
  {
    TrimKeepsHead(other, SPACE);
    hide Trim;
  }

  /** With a name that opens a block, all can be read back only if the lines behind the last name stand in for it. */
  lemma RestoredStandsIn(names: seq<string>, j: nat, after: seq<string>)
    requires j < |names| && OpensBlock(names[j], false) && forall k :: 0 <= k < j ==> !OpensBlock(names[k], false)
    requires NoQuotes(names)
    requires Read(Reader(false, []), Directives(names, false) + after).patterns == names
    ensures BlockStandsIn(names, false, after)
  {
    var block := AsBlock(Directives(names[j + 1..], false) + after);
    ReadGivesPatterns(Reader(false, []), Directives(names, false) + after);
    PatternsArePlain(names[..j]);
    OpenedRead(names, j, after);
    TrimUnpads(names[j], SPACE);
    hide Trim;
    hide Read;
    hide PlainAlone;
    TakeAndDrop(names, j, block);
    if j + 1 < |names| {
      NoDirectiveStandsIn(names, j, after);
    }
    assert names[j + 1..] == [] && names[j..] == [names[j]];
    assert Directives([], false) + after == after;
    hide AsBlock;
  }

  lemma TakeAndDrop(names: seq<string>, j: nat, block: seq<string>)
    requires j <= |names| && names == names[..j] + block
    ensures block == names[j..]
  {
  }

  lemma StandInIsRead(names: seq<string>, j: nat, after: seq<string>)
    requires j < |names| && OpensBlock(names[j], false) && BlockStandsIn(names, false, after)
    ensures Read(Reader(false, []), Directives(names, false) + after).patterns == names
  {
    OpensOnly(names, j);
    OpenedRead(names, j, after);
    assert names[j + 1..] == [] && Directives([], false) + after == after;
    assert names[j] == "(" && AsBlock(after) == ["("];
    hide *;
    InitAndLast(names);
  }

  lemma OpensOnly(names: seq<string>, j: nat)
    requires j < |names| && OpensBlock(names[j], false) && AllPlainAlone(names[..|names| - 1], false)
    ensures j == |names| - 1
  {
    if j < |names| - 1 {
      assert names[..|names| - 1][j] == names[j];
      TrimUnpads(names[j], SPACE);
    }
  }

  /**
   Directives in front of other lines are read back exactly when every name is plain, or the lines behind a last name
   that opens a block stand in for it. Names without quotes are included in either spelling.
   */
  lemma DirectivesBeforeLinesIff(before: seq<string>, names: seq<string>, quoted: bool, after: seq<string>)
    requires AllOther(before) && AllOther(after) && AreLines(names) && (quoted || NoQuotes(names))
    ensures Members(Unlines(before + Directives(names, quoted) + after)) == Some(names) <==>
      names != [] && (AllPlainAlone(names, quoted) || BlockStandsIn(names, quoted, after))
  {
    var start, lines := Reader(false, []), Directives(names, quoted);
    DirectivesRoundTripIff(before, names, quoted, after);
    if i :| 0 <= i < |names| && OpensBlock(names[i], quoted) {
      var j := FirstOpening(names, i);
      OpenedIff(names, j, after);
      OpensNotPlain(names, j);
      DirectivesAreLines(names, quoted);
      ReadOther(start, before);
      hide *;
      LinesTogether(before, lines, after);
      FileIsReadByLines(before + lines + after);
      Associative(before, lines, after);
      ReadAppend(start, before, lines + after);
      ReadIs(before + lines + after, names);
    } else if BlockStandsIn(names, quoted, after) {
      LastOpens(names, quoted, after);
    }
  }

  lemma OpenedIff(names: seq<string>, j: nat, after: seq<string>)
    requires j < |names| && OpensBlock(names[j], false) && forall k :: 0 <= k < j ==> !OpensBlock(names[k], false)
    requires NoQuotes(names)
    ensures Read(Reader(false, []), Directives(names, false) + after).patterns == names
       <==> BlockStandsIn(names, false, after)
  {
    if Read(Reader(false, []), Directives(names, false) + after).patterns == names {
      RestoredStandsIn(names, j, after);
    }
    if BlockStandsIn(names, false, after) {
      StandInIsRead(names, j, after);
    }
    hide *;
  }

  lemma OpensNotPlain(names: seq<string>, j: nat)
    requires j < |names| && OpensBlock(names[j], false)
    ensures !AllPlainAlone(names, false)
  {
    TrimUnpads(names[j], SPACE);
    hide Trim;
  }

  lemma LastOpens(names: seq<string>, quoted: bool, after: seq<string>)
    requires BlockStandsIn(names, quoted, after)
    ensures OpensBlock(names[|names| - 1], quoted)
  {
    TrimUnpads("(", SPACE);
    hide Trim;
  }

  lemma LinesTogether(a: seq<string>, b: seq<string>, c: seq<string>)
    requires AllOther(a) && AreLines(b) && AllOther(c)
    ensures AreLines(a + b + c)
  {
    hide IsOther;
  }

  /** Behind a name that opens a block the lines that follow are read as members, and may happen to restore it. */
  lemma OpeningNameMayBeReadBack()
    ensures !PlainAlone("(", false) && OpensBlock("(", false) && AllOther(["("])
    ensures Members(Unlines([] + Directives(["("], false) + ["("])) == Some(["("])
  {
    var line := "use (";
    OpeningNameOpens();
    BlockOpensAndCloses([], true);
    OpeningNameLines();
    OpeningNameIsPushed();
    hide *;
    ReadTwo(line, "(");
    FileIsReadByLines([line, "("]);
    ReadIs([line, "("], ["("]);
  }

  lemma OpeningNameOpens()
    ensures !PlainAlone("(", false) && OpensBlock("(", false) && AllOther(["("]) && AreLines(["use (", "("])
  {
    TrimUnpads("(", SPACE);
    hide Trim;
  }

  lemma OpeningNameLines()
    ensures [] + Directives(["("], false) + ["("] == ["use (", "("]
  {
    assert ["("][1..] == [] && "use " + "(" == "use (";
    assert Directives(["("], false) == ["use " + "("] + Directives([], false);
  }

  lemma OpeningNameIsPushed()
    ensures Step(Reader(true, []), "(") == Reader(true, ["("])
  {
    TrimUnpads("(", SPACE);
    CleanWritten("(", false);
    assert [] + ["("] == ["("];
    hide Clean;
    hide Trim;
  }

  lemma ReadTwo(first: string, second: string)
    ensures Read(Reader(false, []), [first, second]) == Step(Step(Reader(false, []), first), second)
  {
    var start, rest := Reader(false, []), [second];
    assert [first, second] == [first] + rest;
    ReadAppend(start, [first], rest);
    assert [first][1..] == [] && rest[1..] == [];
    assert Read(start, [first]) == Step(start, first);
    hide Step;
  }

  lemma BlockOpensAndCloses(patterns: seq<string>, inUse: bool)
    ensures Step(Reader(false, patterns), "use (") == Reader(true, patterns)
    ensures Step(Reader(inUse, patterns), ")") == Reader(false, patterns)
  {
    TrimUnpads("use (", SPACE);
    TrimUnpads(")", SPACE);
    assert "use (" == "use" + " (" && "use ("[3..] == " (" && " ("[1..] == "(";
    assert TrimStart(" (", SPACE) == "(";
  }

  /** A block is read back exactly when every name is plain, and other lines do not matter. */
  lemma BlockRoundTripIff(before: seq<string>, names: seq<string>, indent: string, quoted: bool, after: seq<string>)
    requires AllOther(before) && AllOther(after) && AreLines(names) && CargoWorkspace.IsPadding(indent)
    ensures Members(Unlines(before + UseBlock(names, indent, quoted) + after)) == Some(names)
       <==> names != [] && AllPlainInBlock(names, quoted)
  {
    var block, start := UseBlock(names, indent, quoted), Reader(false, []);
    BlockIsLines(names, indent, quoted);
    AroundBlock(names, indent, quoted);
    FileIsReadByLines(before + block + after);
    BlockRead(names, indent, quoted);
    var s := Read(start, block);
    hide *;
    ReadAround(start, before, block, after);
    ReadIs(before + block + after, names);
  }

  lemma AroundBlock(names: seq<string>, indent: string, quoted: bool)
    requires AreLines(BlockLines(names, indent, quoted))
    ensures AreLines(UseBlock(names, indent, quoted))
    ensures forall before, after :: AllOther(before) && AllOther(after) ==>
      AreLines(before + UseBlock(names, indent, quoted) + after)
  {
    hide BlockLines;
  }

  /** Other lines around what is read outside a block change nothing. */
  lemma ReadAround(r: Reader, before: seq<string>, lines: seq<string>, after: seq<string>)
    requires !r.inUse && !Read(r, lines).inUse && AllOther(before) && AllOther(after)
    ensures Read(r, before + lines + after) == Read(r, lines)
  {
    ReadOther(r, before);
    ReadAppend(r, before, lines);
    ReadAppend(r, before + lines, after);
    ReadOther(Read(r, lines), after);
    hide *;
  }

  lemma ReadIs(lines: seq<string>, names: seq<string>)
    ensures MembersIn(lines) == Some(names) <==> names != [] && Read(Reader(false, []), lines).patterns == names
  {
    hide Read;
  }

  lemma BlockRead(names: seq<string>, indent: string, quoted: bool)
    requires CargoWorkspace.IsPadding(indent)
    ensures var s := Read(Reader(false, []), UseBlock(names, indent, quoted));
      !s.inUse && (s.patterns == names <==> AllPlainInBlock(names, quoted))
  {
    var lines, inside := BlockLines(names, indent, quoted), Reader(true, []);
    BlockLinesRead(inside, names, indent, quoted);
    assert [] + names == names;
    var s := Read(inside, lines);
    BlockOpensAndCloses([], true);
    BlockOpensAndCloses(s.patterns, s.inUse);
    hide Step;
    hide PlainInBlock;
    ReadAppend(inside, lines, [")"]);
    TailOfCons("use (", lines + [")"]);
    TailOfCons(")", []);
    assert [")"] + [] == [")"];
    hide BlockLines;
  }
}
