/**
 No JSON text ends in a colon followed by another JSON text. So the colon of a cache key is found again, whatever the
 tool is called.
 */
module KeyScanner {
  import opened JsonKeys
  import opened CacheKeys

  /** Outside a string, inside one, or right behind a backslash in one. */
  datatype Place = Out | In | Esc

  /** What a left-to-right reader of brackets and quotes knows; a backslash outside a string is an error. */
  datatype Scan = Scan(depth: int, place: Place) | Bad

  function Step(s: Scan, c: char): Scan {
    if s.Bad? then Bad
    else
      match s.place
      case Out =>
        if c == '\"' then s.(place := In)
        else if c == '\\' then Bad
        else if c == '[' || c == '{' then s.(depth := s.depth + 1)
        else if c == ']' || c == '}' then s.(depth := s.depth - 1)
        else s
      case In => if c == '\"' then s.(place := Out) else if c == '\\' then s.(place := Esc) else s
      case Esc => s.(place := In)
  }

  function Run(s: Scan, text: string): Scan
    decreases |text|
  {
    if text == [] then s else Run(Step(s, text[0]), text[1..])
  }

  /** Strings count as one more level. */
  function Level(s: Scan): int {
    if s.Bad? then 0 else s.depth + if s.place == Out then 0 else 1
  }

  /** Before each character the level is at least `d`. */
  predicate AllDeep(s: Scan, text: string, d: int)
    decreases |text|
  {
    text == [] || (s.Scan? && Level(s) >= d && AllDeep(Step(s, text[0]), text[1..], d))
  }

  lemma {:induction false} RunAppend(s: Scan, a: string, b: string)
    ensures Run(s, a + b) == Run(Run(s, a), b)
    decreases |a|
  {
    if a == [] {
      assert a + b == b;
    } else {
      assert (a + b)[1..] == a[1..] + b;
      RunAppend(Step(s, a[0]), a[1..], b);
    }
  }

  lemma {:induction false} DeepAppend(s: Scan, a: string, b: string, d: int)
    ensures AllDeep(s, a + b, d) <==> AllDeep(s, a, d) && AllDeep(Run(s, a), b, d)
    decreases |a|
  {
    if a == [] {
      assert a + b == b;
    } else {
      assert (a + b)[1..] == a[1..] + b && (a + b)[0] == a[0];
      DeepAppend(Step(s, a[0]), a[1..], b, d);
    }
  }

  lemma {:induction false} BadStays(text: string)
    ensures Run(Bad, text) == Bad
  {
    if text != [] {
      BadStays(text[1..]);
    }
  }

  lemma RunOne(s: Scan, c: char)
    ensures Run(s, [c]) == Step(s, c)
    ensures forall d :: AllDeep(s, [c], d) <==> s.Scan? && Level(s) >= d
  {
    assert [c][1..] == [];
  }

  // ----- Reading a value from outside a string -----

  /** A text that leads from one state to another without the level ever falling below `d` before its end. */
  predicate Leads(s: Scan, text: string, t: Scan, d: int) {
    Run(s, text) == t && AllDeep(s, text, d)
  }

  lemma LeadsOn(s: Scan, a: string, t: Scan, b: string, u: Scan, d: int)
    requires Leads(s, a, t, d) && Leads(t, b, u, d)
    ensures Leads(s, a + b, u, d)
  {
    RunAppend(s, a, b);
    DeepAppend(s, a, b, d);
  }

  lemma LeadsOver(s: Scan, c: char, d: int)
    requires s.Scan? && Level(s) >= d
    ensures Leads(s, [c], Step(s, c), d)
  {
    RunOne(s, c);
  }

  lemma {:induction false} LeadsLower(s: Scan, text: string, t: Scan, d: int, e: int)
    requires Leads(s, text, t, d) && e <= d
    ensures Leads(s, text, t, e)
    decreases |text|
  {
    if text != [] {
      LeadsLower(Step(s, text[0]), text[1..], t, d, e);
    }
  }

  lemma HexIsPlain(n: nat)
    requires n < 16
    ensures HexDigit(n) != '\"' && HexDigit(n) != '\\'
  {
  }

  /** Inside a string, an escaped character is passed over. */
  lemma EscapedCharLeads(c: char, d: int)
    ensures Leads(Scan(d, In), EscapeChar(c), Scan(d, In), d + 1)
  {
    var e := EscapeChar(c);
    var s, esc := Scan(d, In), Scan(d, Esc);
    if |e| == 1 {
      LeadsOver(s, e[0], d + 1);
      assert e == [e[0]];
    } else {
      LeadsOver(s, e[0], d + 1);
      LeadsOver(esc, e[1], d + 1);
      LeadsOn(s, [e[0]], esc, [e[1]], s, d + 1);
      if |e| == 2 {
        assert e == [e[0]] + [e[1]];
      } else {
        HexIsPlain(c as int / 16);
        HexIsPlain(c as int % 16);
        PlainLeads(e[2..], d);
        LeadsOn(s, [e[0]] + [e[1]], s, e[2..], s, d + 1);
        assert e == [e[0]] + [e[1]] + e[2..];
      }
    }
  }

  lemma {:induction false} PlainLeads(text: string, d: int)
    requires forall i :: 0 <= i < |text| ==> text[i] != '\"' && text[i] != '\\'
    ensures Leads(Scan(d, In), text, Scan(d, In), d + 1)
  {
    if text != [] {
      PlainLeads(text[1..], d);
    }
  }

  lemma {:induction false} EscapedLeads(t: string, d: int)
    ensures Leads(Scan(d, In), Escape(t), Scan(d, In), d + 1)
  {
    if t != [] {
      hide EscapeChar;
      EscapedCharLeads(t[0], d);
      EscapedLeads(t[1..], d);
      LeadsOn(Scan(d, In), EscapeChar(t[0]), Scan(d, In), Escape(t[1..]), Scan(d, In), d + 1);
    }
  }

  /** What follows the opening quote. */
  lemma QuoteTailLeads(t: string, d: int)
    ensures Leads(Scan(d, In), Escape(t) + "\"", Scan(d, Out), d + 1)
  {
    EscapedLeads(t, d);
    LeadsOver(Scan(d, In), '\"', d + 1);
    LeadsOn(Scan(d, In), Escape(t), Scan(d, In), "\"", Scan(d, Out), d + 1);
  }

  lemma QuoteLeads(t: string, d: int)
    ensures Leads(Scan(d, Out), Quote(t), Scan(d, Out), d)
  {
    QuoteTailLeads(t, d);
    LeadsLower(Scan(d, In), Escape(t) + "\"", Scan(d, Out), d + 1, d);
    LeadsOver(Scan(d, Out), '\"', d);
    LeadsOn(Scan(d, Out), "\"", Scan(d, In), Escape(t) + "\"", Scan(d, Out), d);
  }

  lemma {:induction false} FlatLeads(text: string, d: int)
    requires forall i :: 0 <= i < |text| ==> text[i] !in "\"\\[]{}"
    ensures Leads(Scan(d, Out), text, Scan(d, Out), d)
  {
    if text != [] {
      assert text[0] !in "\"\\[]{}";
      var special := "\"\\[]{}";
      assert special[0] == '\"' && special[1] == '\\' && special[2] == '[' && special[3] == ']' && special[4] == '{'
        && special[5] == '}';
      FlatLeads(text[1..], d);
    }
  }

  predicate Nested(v: Json) {
    v.Str? || v.Arr? || v.Obj?
  }

  /** A value leads back to where it started. */
  lemma {:induction false} ValueLeads(v: Json, d: int)
    requires NumbersOk(v)
    ensures Leads(Scan(d, Out), Write(v), Scan(d, Out), d)
    decreases v, 2
  {
    match v
    case Str(s) => QuoteLeads(s, d);
    case Arr(items) => TailLeads(v, d); NestedLeads(v, d);
    case Obj(ms) => TailLeads(v, d); NestedLeads(v, d);
    case _ => FlatLeads(Write(v), d);
  }

  lemma NestedLeads(v: Json, d: int)
    requires (v.Arr? || v.Obj?) && Leads(Scan(d + 1, Out), Write(v)[1..], Scan(d, Out), d + 1)
    ensures Leads(Scan(d, Out), Write(v), Scan(d, Out), d)
  {
    var text := Write(v);
    LeadsLower(Scan(d + 1, Out), text[1..], Scan(d, Out), d + 1, d);
    LeadsOver(Scan(d, Out), text[0], d);
    LeadsOn(Scan(d, Out), [text[0]], Scan(d + 1, Out), text[1..], Scan(d, Out), d);
    assert text == [text[0]] + text[1..];
  }

  /** What follows the opening bracket stays inside it up to its last character. */
  lemma {:induction false} TailLeads(v: Json, d: int)
    requires NumbersOk(v) && (v.Arr? || v.Obj?)
    ensures Leads(Scan(d + 1, Out), Write(v)[1..], Scan(d, Out), d + 1)
    decreases v, 1
  {
    var inside, after := Scan(d + 1, Out), Scan(d, Out);
    LeadsOver(inside, ']', d + 1);
    LeadsOver(inside, '}', d + 1);
    if v.Arr? {
      ArrayText(v, []);
      assert Write(v) + [] == Write(v);
      if v.items == [] {
        assert Write(v)[1..] == "]";
      } else {
        ValueLeads(v.items[0], d + 1);
        ItemsLead(v.items[1..], d);
        LeadsOn(inside, Write(v.items[0]), inside, WriteItems(v.items[1..]), after, d + 1);
        assert Write(v)[1..] == Write(v.items[0]) + WriteItems(v.items[1..]);
      }
    } else {
      ObjectText(v, []);
      assert Write(v) + [] == Write(v);
      if v.members == [] {
        assert Write(v)[1..] == "}";
      } else {
        MemberLeads(v.members[0], d + 1);
        MembersLead(v.members[1..], d);
        LeadsOn(inside, WriteMember(v.members[0]), inside, WriteMembers(v.members[1..]), after, d + 1);
        assert Write(v)[1..] == WriteMember(v.members[0]) + WriteMembers(v.members[1..]);
      }
    }
  }

  lemma {:induction false} ItemsLead(items: seq<Json>, d: int)
    requires forall i :: 0 <= i < |items| ==> NumbersOk(items[i])
    ensures Leads(Scan(d + 1, Out), WriteItems(items), Scan(d, Out), d + 1)
    decreases items, 0
  {
    var inside, after := Scan(d + 1, Out), Scan(d, Out);
    LeadsOver(inside, ']', d + 1);
    if items != [] {
      LeadsOver(inside, ',', d + 1);
      ValueLeads(items[0], d + 1);
      ItemsLead(items[1..], d);
      hide Write;
      LeadsOn(inside, Write(items[0]), inside, WriteItems(items[1..]), after, d + 1);
      LeadsOn(inside, ",", inside, Write(items[0]) + WriteItems(items[1..]), after, d + 1);
    }
  }

  lemma {:induction false} MemberLeads(m: Member, d: int)
    requires NumbersOk(m.value)
    ensures Leads(Scan(d, Out), WriteMember(m), Scan(d, Out), d)
    decreases m, 3
  {
    var here := Scan(d, Out);
    QuoteLeads(m.key, d);
    LeadsOver(here, ':', d);
    ValueLeads(m.value, d);
    LeadsOn(here, ":", here, Write(m.value), here, d);
    LeadsOn(here, Quote(m.key), here, ":" + Write(m.value), here, d);
  }

  lemma {:induction false} MembersLead(ms: seq<Member>, d: int)
    requires forall i :: 0 <= i < |ms| ==> NumbersOk(ms[i].value)
    ensures Leads(Scan(d + 1, Out), WriteMembers(ms), Scan(d, Out), d + 1)
    decreases ms, 0
  {
    var inside, after := Scan(d + 1, Out), Scan(d, Out);
    LeadsOver(inside, '}', d + 1);
    if ms != [] {
      LeadsOver(inside, ',', d + 1);
      MemberLeads(ms[0], d + 1);
      MembersLead(ms[1..], d);
      hide WriteMember;
      LeadsOn(inside, WriteMember(ms[0]), inside, WriteMembers(ms[1..]), after, d + 1);
      LeadsOn(inside, ",", inside, WriteMember(ms[0]) + WriteMembers(ms[1..]), after, d + 1);
    }
  }

  // ----- Reading a value from inside a string -----

  /** Read from inside a string, a value is an error or ends inside one again: its quotes come in pairs. */
  predicate StaysIn(s: Scan) {
    s.Bad? || s.place == In
  }

  predicate StaysOut(s: Scan) {
    s.Bad? || s.place == Out
  }

  lemma {:induction false} EscapedOutside(t: string, s: Scan)
    requires StaysOut(s)
    ensures StaysOut(Run(s, Escape(t)))
    decreases |t|
  {
    if t != [] {
      var e := EscapeChar(t[0]);
      RunAppend(s, e, Escape(t[1..]));
      if e[0] == '\\' {
        BadStays(e[1..]);
      } else {
        RunOne(s, e[0]);
        assert e == [e[0]];
      }
      hide EscapeChar;
      EscapedOutside(t[1..], Run(s, e));
    }
  }

  lemma QuoteStaysIn(t: string, s: Scan)
    requires StaysIn(s)
    ensures StaysIn(Run(s, Quote(t)))
  {
    RunAppend(s, "\"", Escape(t) + "\"");
    RunOne(s, '\"');
    var entered := Step(s, '\"');
    RunAppend(entered, Escape(t), "\"");
    EscapedOutside(t, entered);
    RunOne(Run(entered, Escape(t)), '\"');
  }

  lemma {:induction false} PlainStaysIn(text: string, s: Scan)
    requires forall i :: 0 <= i < |text| ==> text[i] != '\"' && text[i] != '\\'
    requires StaysIn(s)
    ensures StaysIn(Run(s, text))
    decreases |text|
  {
    if text != [] {
      PlainStaysIn(text[1..], Step(s, text[0]));
    }
  }

  lemma {:induction false} ValueStaysIn(v: Json, s: Scan)
    requires NumbersOk(v) && StaysIn(s)
    ensures StaysIn(Run(s, Write(v)))
    decreases v, 2
  {
    match v
    case Str(t) => QuoteStaysIn(t, s);
    case Arr(items) => TailStaysIn(v, s);
    case Obj(ms) => TailStaysIn(v, s);
    case _ => PlainStaysIn(Write(v), s);
  }

  lemma {:induction false} TailStaysIn(v: Json, s: Scan)
    requires NumbersOk(v) && StaysIn(s) && (v.Arr? || v.Obj?)
    ensures StaysIn(Run(s, Write(v)))
    decreases v, 1
  {
    var bracket, tail := [Write(v)[0]], Write(v)[1..];
    assert Write(v) == bracket + tail;
    RunAppend(s, bracket, tail);
    PlainStaysIn(bracket, s);
    var entered := Run(s, bracket);
    assert Write(v) + [] == Write(v);
    if v.Arr? {
      ArrayText(v, []);
      if v.items == [] {
        assert tail == "]";
        PlainStaysIn("]", entered);
      } else {
        var first, rest := Write(v.items[0]), WriteItems(v.items[1..]);
        assert tail == first + rest;
        ValueStaysIn(v.items[0], entered);
        RunAppend(entered, first, rest);
        ItemsStayIn(v.items[1..], Run(entered, first));
      }
    } else {
      ObjectText(v, []);
      if v.members == [] {
        assert tail == "}";
        PlainStaysIn("}", entered);
      } else {
        var first, rest := WriteMember(v.members[0]), WriteMembers(v.members[1..]);
        assert tail == first + rest;
        MemberStaysIn(v.members[0], entered);
        RunAppend(entered, first, rest);
        MembersStayIn(v.members[1..], Run(entered, first));
      }
    }
  }

  lemma {:induction false} ItemsStayIn(items: seq<Json>, s: Scan)
    requires forall i :: 0 <= i < |items| ==> NumbersOk(items[i])
    requires StaysIn(s)
    ensures StaysIn(Run(s, WriteItems(items)))
    decreases items, 0
  {
    if items == [] {
      PlainStaysIn("]", s);
    } else {
      var rest := WriteItems(items[1..]);
      PlainStaysIn(",", s);
      RunAppend(s, ",", Write(items[0]) + rest);
      ValueStaysIn(items[0], Run(s, ","));
      RunAppend(Run(s, ","), Write(items[0]), rest);
      ItemsStayIn(items[1..], Run(Run(s, ","), Write(items[0])));
    }
  }

  lemma {:induction false} MemberStaysIn(m: Member, s: Scan)
    requires NumbersOk(m.value) && StaysIn(s)
    ensures StaysIn(Run(s, WriteMember(m)))
    decreases m, 3
  {
    QuoteStaysIn(m.key, s);
    RunAppend(s, Quote(m.key), ":" + Write(m.value));
    var t := Run(s, Quote(m.key));
    PlainStaysIn(":", t);
    RunAppend(t, ":", Write(m.value));
    ValueStaysIn(m.value, Run(t, ":"));
  }

  lemma {:induction false} MembersStayIn(ms: seq<Member>, s: Scan)
    requires forall i :: 0 <= i < |ms| ==> NumbersOk(ms[i].value)
    requires StaysIn(s)
    ensures StaysIn(Run(s, WriteMembers(ms)))
    decreases ms, 0
  {
    if ms == [] {
      PlainStaysIn("}", s);
    } else {
      var rest := WriteMembers(ms[1..]);
      PlainStaysIn(",", s);
      RunAppend(s, ",", WriteMember(ms[0]) + rest);
      MemberStaysIn(ms[0], Run(s, ","));
      RunAppend(Run(s, ","), WriteMember(ms[0]), rest);
      MembersStayIn(ms[1..], Run(Run(s, ","), WriteMember(ms[0])));
    }
  }

  // ----- The colon of a key -----

  /** What follows the first character of a nested value, read from there. */
  lemma NestedTail(v: Json)
    requires NumbersOk(v) && Nested(v)
    ensures Write(v) != [] && var s := Step(Scan(0, Out), Write(v)[0]);
      Leads(s, Write(v)[1..], Scan(0, Out), 1)
  {
    match v
    case Str(t) =>
      QuoteTailLeads(t, 0);
      assert Write(v)[1..] == Escape(t) + "\"";
    case Arr(_) => TailLeads(v, 0);
    case Obj(_) => TailLeads(v, 0);
  }

  lemma FlatHasNoColon(v: Json)
    requires NumbersOk(v) && !Nested(v)
    ensures ':' !in Write(v)
  {
  }

  /** No reading that stays inside up to its last character passes a colon and then a whole value. */
  lemma TailThroughColon(s: Scan, f: string, b: Json)
    requires NumbersOk(b)
    ensures !Leads(s, f + ":" + Write(b), Scan(0, Out), 1)
  {
    var t := Run(s, f + ":");
    FirstCharacter(b);
    RunAppend(s, f, ":");
    RunOne(Run(s, f), ':');
    RunAppend(s, f + ":", Write(b));
    DeepAppend(s, f + ":", Write(b), 1);
    if t.Scan? && t.place == Out {
      ValueLeads(b, t.depth);
    } else if t.Scan? {
      ValueStaysIn(b, t);
    }
  }

  /** A value's text is never some text, a colon and the text of a value. */
  lemma NothingBeforeAColon(a: Json, p: string, b: Json)
    requires NumbersOk(a) && NumbersOk(b)
    ensures Write(a) != p + ":" + Write(b)
  {
    var text := p + ":" + Write(b);
    assert text[|p|] == ':';
    if !Nested(a) {
      FlatHasNoColon(a);
    } else {
      NestedTail(a);
      FirstCharacter(a);
      if p != [] {
        TailThroughColon(Step(Scan(0, Out), Write(a)[0]), p[1..], b);
        assert text[1..] == p[1..] + ":" + Write(b);
      }
    }
  }

  /**
   Two calls share a cache key exactly when they name the same tool and their arguments differ in the order of object
   members only.
   */
  lemma SameKeyIff(tool: string, args: Json, tool': string, args': Json)
    requires WellFormed(args) && WellFormed(args') && NumbersOk(args) && NumbersOk(args')
    ensures CacheKey(tool, args) == CacheKey(tool', args') <==> tool == tool' && Equivalent(args, args')
  {
    SortedAlikeIff(args, args');
    SortKeepsNumbers(args);
    SortKeepsNumbers(args');
    hide NumbersOk;
    hide SortJsonKeys;
    hide Equivalent;
    hide WellFormed;
    if CacheKey(tool, args) == CacheKey(tool', args') {
      KeyDecodes(tool, SortJsonKeys(args), tool', SortJsonKeys(args'));
    }
  }

  lemma KeyDecodes(s: string, a: Json, t: string, b: Json)
    requires NumbersOk(a) && NumbersOk(b)
    requires s + (":" + Write(a)) == t + (":" + Write(b))
    ensures s == t && a == b
  {
    hide Write;
    if |s| < |t| {
      ShorterToolDiffers(s, a, t, b);
    } else if |t| < |s| {
      ShorterToolDiffers(t, b, s, a);
    } else {
      var x, y := ":" + Write(a), ":" + Write(b);
      assert s == (s + x)[..|s|] && t == (t + y)[..|t|];
      assert Write(a) == (s + x)[|s| + 1..] && Write(b) == (t + y)[|t| + 1..];
      assert Write(a) + [] == Write(a) && Write(b) + [] == Write(b);
      ValuesDecode(a, b, [], []);
    }
  }

  lemma ShorterToolDiffers(s: string, a: Json, t: string, b: Json)
    requires NumbersOk(a) && NumbersOk(b) && |s| < |t|
    ensures s + (":" + Write(a)) != t + (":" + Write(b))
  {
    var p := t[|s| + 1..];
    NothingBeforeAColon(a, p, b);
    hide Write;
    assert (t + (":" + Write(b)))[|s| + 1..] == p + ":" + Write(b);
    assert (s + (":" + Write(a)))[|s| + 1..] == Write(a);
  }
}
