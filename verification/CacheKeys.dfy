/** The text of a cache key, and that the text of a value names the value. */
module CacheKeys {
  import opened Ordering
  import opened JsonKeys
  import opened Splitting

  function HexDigit(n: nat): char
    requires n < 16
  {
    "0123456789abcdef"[n]
  }

  /** How one character is written inside a JSON string. */
  function EscapeChar(c: char): (e: string)
    ensures e != []
  {
    if c == '\"' then "\\\""
    else if c == '\\' then "\\\\"
    else if c as int == 8 then "\\b"
    else if c as int == 9 then "\\t"
    else if c as int == 10 then "\\n"
    else if c as int == 12 then "\\f"
    else if c as int == 13 then "\\r"
    else if c as int < 32 then "\\u00" + [HexDigit(c as int / 16), HexDigit(c as int % 16)]
    else [c]
  }

  function Escape(s: string): string {
    if s == [] then [] else EscapeChar(s[0]) + Escape(s[1..])
  }

  function Quote(s: string): string {
    "\"" + (Escape(s) + "\"")
  }

  /** The compact text of a JSON value. */
  function Write(v: Json): string
    decreases v, 1
  {
    match v
    case Null => "null"
    case Bool(b) => if b then "true" else "false"
    case Num(text) => text
    case Str(s) => Quote(s)
    case Arr(items) => "[" + if items == [] then "]" else Write(items[0]) + WriteItems(items[1..])
    case Obj(ms) => "{" + if ms == [] then "}" else WriteMember(ms[0]) + WriteMembers(ms[1..])
  }

  function WriteItems(items: seq<Json>): (s: string)
    ensures s != [] && (s[0] == ',' || s[0] == ']')
    decreases items, 0
  {
    if items == [] then "]" else "," + (Write(items[0]) + WriteItems(items[1..]))
  }

  function WriteMember(m: Member): string
    decreases m, 2
  {
    Quote(m.key) + (":" + Write(m.value))
  }

  function WriteMembers(ms: seq<Member>): (s: string)
    ensures s != [] && (s[0] == ',' || s[0] == '}')
    decreases ms, 0
  {
    if ms == [] then "}" else "," + (WriteMember(ms[0]) + WriteMembers(ms[1..]))
  }

  function CacheKey(tool: string, args: Json): string {
    tool + (":" + Write(SortJsonKeys(args)))
  }

  // ----- What the text looks like -----

  /** Only quotes, backslashes and control characters are escaped: by a letter, or by four hexadecimal digits. */
  lemma EscapedIff(c: char)
    ensures EscapeChar(c) == [c] <==> c != '\"' && c != '\\' && ' ' <= c
    ensures EscapeChar(c) != [c] ==> EscapeChar(c)[0] == '\\'
    ensures EscapeChar(c) != [c] && |EscapeChar(c)| != 2 ==>
      |EscapeChar(c)| == 6 && EscapeChar(c)[1] == 'u' && EscapeChar(c)[2] == EscapeChar(c)[3] == '0'
  {
  }

  function TextsOf(items: seq<Json>): (r: seq<string>)
    ensures |r| == |items|
    ensures forall i :: 0 <= i < |items| ==> r[i] == Write(items[i])
  {
    if items == [] then [] else [Write(items[0])] + TextsOf(items[1..])
  }

  function MemberTexts(ms: seq<Member>): (r: seq<string>)
    ensures |r| == |ms|
    ensures forall i :: 0 <= i < |ms| ==> r[i] == Write(Str(ms[i].key)) + ":" + Write(ms[i].value)
  {
    if ms == [] then [] else [Write(Str(ms[0].key)) + ":" + Write(ms[0].value)] + MemberTexts(ms[1..])
  }

  /** Values are spelled as JSON spells them: words, bracketed lists and braced members, with no space between. */
  lemma TextIs(v: Json)
    ensures v.Null? ==> Write(v) == "null"
    ensures v.Bool? ==> Write(v) == if v.b then "true" else "false"
    ensures v.Num? ==> Write(v) == v.text
    ensures v.Str? ==> Write(v) == "\"" + Escape(v.s) + "\""
    ensures v.Arr? ==> Write(v) == "[" + Join(TextsOf(v.items), ',') + "]"
    ensures v.Obj? ==> Write(v) == "{" + Join(MemberTexts(v.members), ',') + "}"
  {
    if v.Arr? && v.items != [] {
      JoinedItems(v.items);
    }
    if v.Obj? && v.members != [] {
      JoinedMembers(v.members);
    }
  }

  lemma JoinTwo(cells: seq<string>, first: string, rest: seq<string>, sep: char)
    requires cells == [first] + rest
    ensures Join(cells, sep) == if rest == [] then first else first + [sep] + Join(rest, sep)
  {
    assert cells[1..] == rest;
  }

  lemma TextsTail(items: seq<Json>)
    requires items != []
    ensures TextsOf(items) == [Write(items[0])] + TextsOf(items[1..])
  {
    hide Write;
  }

  lemma ItemsTail(items: seq<Json>)
    ensures WriteItems(items) == if items == [] then "]" else "," + (Write(items[0]) + WriteItems(items[1..]))
  {
    hide Write;
  }

  lemma {:induction false} JoinedItems(items: seq<Json>)
    requires items != []
    ensures Write(items[0]) + WriteItems(items[1..]) == Join(TextsOf(items), ',') + "]"
  {
    TextsTail(items);
    ItemsTail(items[1..]);
    hide *;
    JoinTwo(TextsOf(items), Write(items[0]), TextsOf(items[1..]), ',');
    if |items| > 1 {
      JoinedItems(items[1..]);
      Regroup(Write(items[0]), ',', Join(TextsOf(items[1..]), ','), "]");
    }
  }

  lemma Regroup(a: string, c: char, b: string, e: string)
    ensures a + ([c] + (b + e)) == a + [c] + b + e
  {
  }

  lemma MemberTextsTail(ms: seq<Member>)
    requires ms != []
    ensures MemberTexts(ms) == [WriteMember(ms[0])] + MemberTexts(ms[1..])
  {
    var key, value := Quote(ms[0].key), Write(ms[0].value);
    assert key + (":" + value) == key + ":" + value;
    assert Write(Str(ms[0].key)) == key;
    hide Quote;
  }

  lemma MembersTail(ms: seq<Member>)
    ensures WriteMembers(ms) == if ms == [] then "}" else "," + (WriteMember(ms[0]) + WriteMembers(ms[1..]))
  {
    hide WriteMember;
  }

  lemma {:induction false} JoinedMembers(ms: seq<Member>)
    requires ms != []
    ensures WriteMember(ms[0]) + WriteMembers(ms[1..]) == Join(MemberTexts(ms), ',') + "}"
  {
    MemberTextsTail(ms);
    MembersTail(ms[1..]);
    hide *;
    JoinTwo(MemberTexts(ms), WriteMember(ms[0]), MemberTexts(ms[1..]), ',');
    if |ms| > 1 {
      JoinedMembers(ms[1..]);
      Regroup(WriteMember(ms[0]), ',', Join(MemberTexts(ms[1..]), ','), "}");
    }
  }

  // ----- Reading back -----

  predicate IsNumeric(c: char) {
    '0' <= c <= '9' || c == '-' || c == '+' || c == '.' || c == 'e' || c == 'E'
  }

  /** Numbers are printed with at least one character, a digit or a sign first. */
  ghost predicate NumbersOk(v: Json) {
    match v
    case Num(text) =>
      text != [] && ('0' <= text[0] <= '9' || text[0] == '-') && forall i :: 0 <= i < |text| ==> IsNumeric(text[i])
    case Arr(items) => forall i :: 0 <= i < |items| ==> NumbersOk(items[i])
    case Obj(ms) => forall i :: 0 <= i < |ms| ==> NumbersOk(ms[i].value)
    case _ => true
  }

  /** What may follow a value. */
  predicate Stops(rest: string) {
    rest == [] || rest[0] == ',' || rest[0] == ']' || rest[0] == '}'
  }

  lemma CharsDecode(c: char, d: char, x: string, y: string)
    requires EscapeChar(c) + x == EscapeChar(d) + y
    ensures c == d && x == y
  {
    var e, f := EscapeChar(c), EscapeChar(d);
    EscapeLengths(c);
    EscapeLengths(d);
    hide EscapeChar;
    assert (e + x)[0] == e[0] && (f + y)[0] == f[0];
    assert |e| >= 2 ==> (e + x)[1] == e[1];
    assert |f| >= 2 ==> (f + y)[1] == f[1];
    assert |e| == 6 ==> (e + x)[4] == e[4] && (e + x)[5] == e[5];
    assert |f| == 6 ==> (f + y)[4] == f[4] && (f + y)[5] == f[5];
    assert (e + x)[|e|..] == x && (f + y)[|f|..] == y;
    EscapesDiffer(c, d);
  }

  function HexValue(h: char): int {
    if h <= '9' then h as int - '0' as int else h as int - 'a' as int + 10
  }

  /** The character that an escape stands for, given the length of the escape and the characters that matter. */
  function Unescape(length: nat, first: char, second: char, fifth: char, sixth: char): int {
    if length == 1 then first as int
    else if length == 6 then 16 * HexValue(fifth) + HexValue(sixth)
    else if second == 'b' then 8
    else if second == 't' then 9
    else if second == 'n' then 10
    else if second == 'f' then 12
    else if second == 'r' then 13
    else second as int
  }

  lemma HexRoundTrip(n: nat)
    requires n < 16
    ensures HexValue(HexDigit(n)) == n
  {
  }

  lemma UnescapesTo(c: char)
    ensures var e := EscapeChar(c);
      Unescape(|e|, e[0], if |e| >= 2 then e[1] else c, if |e| == 6 then e[4] else c, if |e| == 6 then e[5] else c)
      == c as int
  {
    if c as int < 32 {
      HexRoundTrip(c as int / 16);
      HexRoundTrip(c as int % 16);
      hide HexDigit;
      hide HexValue;
    }
  }

  /** The first two characters, and for the long form the last two, tell the escaped characters apart. */
  lemma EscapesDiffer(c: char, d: char)
    requires EscapeChar(c)[0] == EscapeChar(d)[0]
    requires |EscapeChar(c)| >= 2 && |EscapeChar(d)| >= 2 ==> EscapeChar(c)[1] == EscapeChar(d)[1]
    requires |EscapeChar(c)| == 6 && |EscapeChar(d)| == 6 ==>
      EscapeChar(c)[4] == EscapeChar(d)[4] && EscapeChar(c)[5] == EscapeChar(d)[5]
    ensures c == d
  {
    EscapeLengths(c);
    EscapeLengths(d);
    UnescapesTo(c);
    UnescapesTo(d);
    hide EscapeChar;
  }

  lemma EscapeLengths(c: char)
    ensures |EscapeChar(c)| == 1 || |EscapeChar(c)| == 2 || |EscapeChar(c)| == 6
    ensures |EscapeChar(c)| == 1 <==> EscapeChar(c)[0] != '\\'
    ensures |EscapeChar(c)| == 6 ==> EscapeChar(c)[1] == 'u'
    ensures |EscapeChar(c)| == 2 ==> EscapeChar(c)[1] != 'u'
  {
  }

  /** The start of a concatenation. */
  lemma Heads(s: string, x: string)
    ensures s == [] ==> s + x == x
    ensures s != [] ==> s + x != [] && (s + x)[0] == s[0] && (s + x)[1..] == s[1..] + x
  {
  }

  lemma EscapeSplits(s: string, x: string)
    ensures s != [] ==> Escape(s) + x == EscapeChar(s[0]) + (Escape(s[1..]) + x)
    ensures s != [] ==> Escape(s) != [] && Escape(s)[0] != '\"'
  {
    if s != [] {
      assert EscapeChar(s[0])[0] != '\"';
    }
  }

  lemma {:induction false} StringsDecode(s: string, t: string, x: string, y: string)
    requires Escape(s) + ("\"" + x) == Escape(t) + ("\"" + y)
    ensures s == t && x == y
  {
    EscapeSplits(s, "\"" + x);
    EscapeSplits(t, "\"" + y);
    Heads(Escape(s), "\"" + x);
    Heads(Escape(t), "\"" + y);
    Heads("\"", x);
    Heads("\"", y);
    assert "\""[1..] == "";
    if s != [] && t != [] {
      hide EscapeChar;
      CharsDecode(s[0], t[0], Escape(s[1..]) + ("\"" + x), Escape(t[1..]) + ("\"" + y));
      StringsDecode(s[1..], t[1..], x, y);
      assert s == [s[0]] + s[1..] && t == [t[0]] + t[1..];
    }
  }

  lemma QuoteText(s: string, x: string)
    ensures Quote(s) + x == "\"" + (Escape(s) + ("\"" + x))
  {
    Heads("\"", Escape(s) + ("\"" + x));
  }

  lemma QuotesDecode(s: string, t: string, x: string, y: string)
    requires Quote(s) + x == Quote(t) + y
    ensures s == t && x == y
  {
    QuoteText(s, x);
    QuoteText(t, y);
    hide Quote;
    Heads("\"", Escape(s) + ("\"" + x));
    Heads("\"", Escape(t) + ("\"" + y));
    assert "\""[1..] == "";
    StringsDecode(s, t, x, y);
  }

  lemma {:induction false} NumbersDecode(s: string, t: string, x: string, y: string)
    requires forall i :: 0 <= i < |s| ==> IsNumeric(s[i])
    requires forall i :: 0 <= i < |t| ==> IsNumeric(t[i])
    requires Stops(x) && Stops(y)
    requires s + x == t + y
    ensures s == t && x == y
  {
    Heads(s, x);
    Heads(t, y);
    assert s != [] ==> IsNumeric(s[0]);
    assert t != [] ==> IsNumeric(t[0]);
    if s != [] && t != [] {
      NumbersDecode(s[1..], t[1..], x, y);
      assert s == [s[0]] + s[1..] && t == [t[0]] + t[1..];
    }
  }

  /** The first character tells what kind of value follows. */
  function Kind(v: Json): nat {
    match v
    case Null => 0
    case Bool(b) => if b then 1 else 2
    case Num(_) => 3
    case Str(_) => 4
    case Arr(_) => 5
    case Obj(_) => 6
  }

  function KindOfChar(c: char): nat {
    if c == 'n' then 0
    else if c == 't' then 1
    else if c == 'f' then 2
    else if c == '\"' then 4
    else if c == '[' then 5
    else if c == '{' then 6
    else 3
  }

  lemma FirstCharacter(v: Json)
    requires NumbersOk(v)
    ensures Write(v) != [] && KindOfChar(Write(v)[0]) == Kind(v)
    ensures Write(v)[0] != ',' && Write(v)[0] != ']' && Write(v)[0] != '}'
  {
  }

  /** The text of a value ends where the value ends: nothing else starts with it. */
  lemma {:induction false} ValuesDecode(a: Json, b: Json, x: string, y: string)
    requires NumbersOk(a) && NumbersOk(b) && Stops(x) && Stops(y)
    requires Write(a) + x == Write(b) + y
    ensures a == b && x == y
    decreases a, 1
  {
    FirstCharacter(a);
    FirstCharacter(b);
    Heads(Write(a), x);
    Heads(Write(b), y);
    match a
    case Num(s) => NumbersDecode(s, b.text, x, y);
    case Str(s) => QuotesDecode(s, b.s, x, y);
    case Arr(items) => ArraysDecode(a, b, x, y);
    case Obj(ms) => ObjectsDecode(a, b, x, y);
    case _ =>
      assert Write(a) == Write(b);
      assert (Write(a) + x)[|Write(a)|..] == x && (Write(b) + y)[|Write(b)|..] == y;
  }

  lemma ArrayText(a: Json, x: string)
    requires a.Arr?
    ensures (Write(a) + x)[1..]
         == if a.items == [] then "]" + x else Write(a.items[0]) + (WriteItems(a.items[1..]) + x)
  {
    Heads(Write(a), x);
  }

  lemma ItemsText(xs: seq<Json>, x: string)
    ensures WriteItems(xs) + x != []
    ensures xs == [] ==> (WriteItems(xs) + x)[0] == ']' && (WriteItems(xs) + x)[1..] == x
    ensures xs != [] ==>
      (WriteItems(xs) + x)[0] == ',' && (WriteItems(xs) + x)[1..] == Write(xs[0]) + (WriteItems(xs[1..]) + x)
  {
    Heads(WriteItems(xs), x);
  }

  lemma ObjectText(a: Json, x: string)
    requires a.Obj?
    ensures (Write(a) + x)[1..]
         == if a.members == [] then "}" + x else WriteMember(a.members[0]) + (WriteMembers(a.members[1..]) + x)
  {
    Heads(Write(a), x);
  }

  lemma MembersText(ms: seq<Member>, x: string)
    ensures WriteMembers(ms) + x != []
    ensures ms == [] ==> (WriteMembers(ms) + x)[0] == '}' && (WriteMembers(ms) + x)[1..] == x
    ensures ms != [] ==>
      && (WriteMembers(ms) + x)[0] == ','
      && (WriteMembers(ms) + x)[1..] == WriteMember(ms[0]) + (WriteMembers(ms[1..]) + x)
  {
    Heads(WriteMembers(ms), x);
  }

  lemma MemberText(m: Member, x: string)
    ensures WriteMember(m) + x == Quote(m.key) + (":" + (Write(m.value) + x))
    ensures WriteMember(m) != [] && WriteMember(m)[0] == '\"'
  {
  }

  /** The first character of a value or of a member, in front of anything. */
  lemma StartOf(v: Json, x: string)
    requires NumbersOk(v)
    ensures Write(v) + x != [] && (Write(v) + x)[0] == Write(v)[0] != ']'
  {
    FirstCharacter(v);
  }

  lemma {:induction false} ArraysDecode(a: Json, b: Json, x: string, y: string)
    requires a.Arr? && b.Arr? && NumbersOk(a) && NumbersOk(b) && Stops(x) && Stops(y)
    requires Write(a) + x == Write(b) + y
    ensures a == b && x == y
    decreases a, 0
  {
    ArrayText(a, x);
    ArrayText(b, y);
    Heads("]", x);
    Heads("]", y);
    assert "]"[1..] == "";
    hide Write;
    hide WriteItems;
    if a.items != [] {
      StartOf(a.items[0], WriteItems(a.items[1..]) + x);
    }
    if b.items != [] {
      StartOf(b.items[0], WriteItems(b.items[1..]) + y);
    }
    if a.items != [] && b.items != [] {
      StopsAtItems(a.items[1..], x);
      StopsAtItems(b.items[1..], y);
      ValuesDecode(a.items[0], b.items[0], WriteItems(a.items[1..]) + x, WriteItems(b.items[1..]) + y);
      ItemsDecode(a.items[1..], b.items[1..], x, y);
      assert a.items == [a.items[0]] + a.items[1..] && b.items == [b.items[0]] + b.items[1..];
    }
  }

  lemma StopsAtItems(xs: seq<Json>, x: string)
    ensures Stops(WriteItems(xs) + x)
  {
    ItemsText(xs, x);
  }

  lemma StopsAtMembers(ms: seq<Member>, x: string)
    ensures Stops(WriteMembers(ms) + x)
  {
    MembersText(ms, x);
  }

  lemma {:induction false} ItemsDecode(xs: seq<Json>, ys: seq<Json>, x: string, y: string)
    requires forall i :: 0 <= i < |xs| ==> NumbersOk(xs[i])
    requires forall i :: 0 <= i < |ys| ==> NumbersOk(ys[i])
    requires Stops(x) && Stops(y)
    requires WriteItems(xs) + x == WriteItems(ys) + y
    ensures xs == ys && x == y
    decreases xs, 0
  {
    ItemsText(xs, x);
    ItemsText(ys, y);
    hide Write;
    hide WriteItems;
    if xs != [] {
      StopsAtItems(xs[1..], x);
      StopsAtItems(ys[1..], y);
      ValuesDecode(xs[0], ys[0], WriteItems(xs[1..]) + x, WriteItems(ys[1..]) + y);
      ItemsDecode(xs[1..], ys[1..], x, y);
      assert xs == [xs[0]] + xs[1..] && ys == [ys[0]] + ys[1..];
    }
  }

  lemma {:induction false} MemberDecodes(m: Member, n: Member, x: string, y: string)
    requires NumbersOk(m.value) && NumbersOk(n.value) && Stops(x) && Stops(y)
    requires WriteMember(m) + x == WriteMember(n) + y
    ensures m == n && x == y
    decreases m, 2
  {
    MemberText(m, x);
    MemberText(n, y);
    hide WriteMember;
    hide Write;
    hide Quote;
    var v, w := Write(m.value) + x, Write(n.value) + y;
    QuotesDecode(m.key, n.key, ":" + v, ":" + w);
    Heads(":", v);
    Heads(":", w);
    assert ":"[1..] == "";
    ValuesDecode(m.value, n.value, x, y);
  }

  lemma {:induction false} ObjectsDecode(a: Json, b: Json, x: string, y: string)
    requires a.Obj? && b.Obj? && NumbersOk(a) && NumbersOk(b) && Stops(x) && Stops(y)
    requires Write(a) + x == Write(b) + y
    ensures a == b && x == y
    decreases a, 0
  {
    ObjectText(a, x);
    ObjectText(b, y);
    Heads("}", x);
    Heads("}", y);
    assert "}"[1..] == "";
    if a.members != [] {
      MemberText(a.members[0], "");
      Heads(WriteMember(a.members[0]), WriteMembers(a.members[1..]) + x);
    }
    if b.members != [] {
      MemberText(b.members[0], "");
      Heads(WriteMember(b.members[0]), WriteMembers(b.members[1..]) + y);
    }
    hide Write;
    hide WriteMember;
    hide WriteMembers;
    if a.members != [] && b.members != [] {
      StopsAtMembers(a.members[1..], x);
      StopsAtMembers(b.members[1..], y);
      MemberDecodes(a.members[0], b.members[0], WriteMembers(a.members[1..]) + x, WriteMembers(b.members[1..]) + y);
      MembersDecode(a.members[1..], b.members[1..], x, y);
      assert a.members == [a.members[0]] + a.members[1..] && b.members == [b.members[0]] + b.members[1..];
    }
  }

  lemma {:induction false} MembersDecode(ms: seq<Member>, ns: seq<Member>, x: string, y: string)
    requires forall i :: 0 <= i < |ms| ==> NumbersOk(ms[i].value)
    requires forall i :: 0 <= i < |ns| ==> NumbersOk(ns[i].value)
    requires Stops(x) && Stops(y)
    requires WriteMembers(ms) + x == WriteMembers(ns) + y
    ensures ms == ns && x == y
    decreases ms, 0
  {
    MembersText(ms, x);
    MembersText(ns, y);
    hide WriteMember;
    hide WriteMembers;
    if ms != [] {
      StopsAtMembers(ms[1..], x);
      StopsAtMembers(ns[1..], y);
      MemberDecodes(ms[0], ns[0], WriteMembers(ms[1..]) + x, WriteMembers(ns[1..]) + y);
      MembersDecode(ms[1..], ns[1..], x, y);
      assert ms == [ms[0]] + ms[1..] && ns == [ns[0]] + ns[1..];
    }
  }

  // ----- Keys -----

  lemma {:induction false} SortKeepsNumbers(v: Json)
    requires NumbersOk(v)
    ensures NumbersOk(SortJsonKeys(v))
    decreases v
  {
    match v
    case Arr(items) =>
      forall i | 0 <= i < |items| ensures NumbersOk(SortJsonKeys(items[i])) {
        SortKeepsNumbers(items[i]);
      }
    case Obj(ms) =>
      forall i | 0 <= i < |ms| ensures NumbersOk(SortJsonKeys(ms[i].value)) {
        SortKeepsNumbers(ms[i].value);
      }
      SortMembers(KeysOf(ms));
    case _ =>
  }
}
