/** Cutting UTF-8 text to a number of bytes without cutting a character. */
module Utf8 {
  import opened Sequences

  type byte = x: int | 0 <= x < 256

  /** A Unicode scalar value: a code point that is not a surrogate. */
  type Scalar = c: int | 0 <= c < 0xD800 || 0xE000 <= c < 0x110000

  /** A continuation byte, 10xxxxxx. */
  predicate Continues(b: byte) {
    0x80 <= b < 0xC0
  }

  /** The bytes of one character (section 3 of RFC 3629). */
  function Encode(c: Scalar): (e: seq<byte>)
    ensures 1 <= |e| <= 4
    ensures !Continues(e[0]) && forall i :: 1 <= i < |e| ==> Continues(e[i])
  {
    if c < 0x80 then [c]
    else if c < 0x800 then [0xC0 + c / 0x40, 0x80 + c % 0x40]
    else if c < 0x10000 then [0xE0 + c / 0x1000, 0x80 + c / 0x40 % 0x40, 0x80 + c % 0x40]
    else [0xF0 + c / 0x40000, 0x80 + c / 0x1000 % 0x40, 0x80 + c / 0x40 % 0x40, 0x80 + c % 0x40]
  }

  function Text(cs: seq<Scalar>): seq<byte> {
    if cs == [] then [] else Encode(cs[0]) + Text(cs[1..])
  }

  ghost predicate IsUtf8(s: seq<byte>) {
    exists cs :: Text(cs) == s
  }

  /** Where a character starts. */
  function Offset(cs: seq<Scalar>, k: nat): nat
    requires k <= |cs|
  {
    |Text(cs[..k])|
  }

  /** A position that starts no continuation byte; the end of the text is one. */
  predicate IsCharBoundary(s: seq<byte>, i: nat) {
    i == 0 || i == |s| || (i < |s| && !Continues(s[i]))
  }

  lemma {:induction false} TextSplits(cs: seq<Scalar>, k: nat)
    requires k <= |cs|
    ensures Text(cs) == Text(cs[..k]) + Text(cs[k..])
  {
    if k == 0 {
      AllTaken(cs);
    } else {
      TextSplits(cs[1..], k - 1);
      assert cs[..k][1..] == cs[1..][..k - 1] && cs[1..][k - 1..] == cs[k..];
      assert Text(cs[..k]) == Encode(cs[0]) + Text(cs[1..][..k - 1]);
      hide Encode;
      Associative(Encode(cs[0]), Text(cs[1..][..k - 1]), Text(cs[k..]));
      hide Text;
    }
  }

  lemma OneMoreCharacter(cs: seq<Scalar>, k: nat)
    requires k < |cs|
    ensures Text(cs[..k + 1]) == Text(cs[..k]) + Encode(cs[k])
    ensures Text(cs[k..]) == Encode(cs[k]) + Text(cs[k + 1..])
  {
    TextSplits(cs[..k + 1], k);
    assert cs[..k + 1][..k] == cs[..k] && cs[..k + 1][k..] == [cs[k]];
    assert Text([cs[k]]) == Encode(cs[k]);
  }

  lemma {:induction false} OffsetsGrow(cs: seq<Scalar>, j: nat, k: nat)
    requires j < k <= |cs|
    ensures Offset(cs, j) < Offset(cs, k)
    decreases k
  {
    OneMoreCharacter(cs, k - 1);
    if j < k - 1 {
      OffsetsGrow(cs, j, k - 1);
    }
  }

  /** The character that holds a byte; its later bytes, and only those, are continuation bytes. */
  lemma {:induction false} CharacterAt(cs: seq<Scalar>, i: nat) returns (k: nat)
    requires i < |Text(cs)|
    ensures k < |cs| && Offset(cs, k) <= i < Offset(cs, k + 1) <= Offset(cs, k) + 4
    ensures Continues(Text(cs)[i]) <==> Offset(cs, k) < i
  {
    var first := Encode(cs[0]);
    if i < |first| {
      k := 0;
      assert cs[..1][1..] == [];
    } else {
      k := CharacterAt(cs[1..], i - |first|);
      assert cs[..k + 1][1..] == cs[1..][..k] && cs[..k + 2][1..] == cs[1..][..k + 1];
      k := k + 1;
    }
  }

  /** The positions that are no continuation byte are exactly the starts of characters, and the end. */
  lemma BoundaryIffCharacterStart(cs: seq<Scalar>, i: nat)
    requires i <= |Text(cs)|
    ensures IsCharBoundary(Text(cs), i) <==> exists k :: 0 <= k <= |cs| && Offset(cs, k) == i
  {
    assert cs[..|cs|] == cs && Offset(cs, |cs|) == |Text(cs)| && Offset(cs, 0) == 0;
    if i < |Text(cs)| {
      var k := CharacterAt(cs, i);
      forall j | 0 <= j <= |cs| ensures Offset(cs, j) == i ==> j == k {
        if j < k {
          OffsetsGrow(cs, j, k);
        } else if k + 1 < j {
          OffsetsGrow(cs, k + 1, j);
        }
      }
    }
  }

  /** How many bytes a character has, by its first. */
  function LengthByLead(b: byte): nat {
    if b < 0x80 then 1 else if b < 0xE0 then 2 else if b < 0xF0 then 3 else 4
  }

  /** The six-bit groups put together again. */
  function Value(e: seq<byte>): int
    requires 1 <= |e| <= 4
  {
    if |e| == 1 then e[0]
    else if |e| == 2 then (e[0] as int - 0xC0) * 0x40 + (e[1] as int - 0x80)
    else if |e| == 3 then (e[0] as int - 0xE0) * 0x1000 + (e[1] as int - 0x80) * 0x40 + (e[2] as int - 0x80)
    else
      (e[0] as int - 0xF0) * 0x40000 + (e[1] as int - 0x80) * 0x1000
      + (e[2] as int - 0x80) * 0x40 + (e[3] as int - 0x80)
  }

  lemma EncodeDecodes(c: Scalar)
    ensures |Encode(c)| == LengthByLead(Encode(c)[0]) && Value(Encode(c)) == c
  {
    assert c / 0x40 / 0x40 == c / 0x1000 && c / 0x1000 / 0x40 == c / 0x40000;
  }

  /** The first byte tells how many follow, and the bytes tell the character. */
  lemma CharacterDecodes(c: Scalar, d: Scalar, x: seq<byte>, y: seq<byte>)
    requires Encode(c) + x == Encode(d) + y
    ensures c == d && x == y
  {
    EncodeDecodes(c);
    EncodeDecodes(d);
    hide Encode;
    hide Value;
    var e, f := Encode(c), Encode(d);
    assert (e + x)[0] == e[0] && (f + y)[0] == f[0];
    assert e == (e + x)[..|e|] && f == (f + y)[..|f|];
    assert x == (e + x)[|e|..] && y == (f + y)[|f|..];
  }

  /** Bytes are the text of at most one sequence of characters. */
  lemma {:induction false} DecodesOnce(a: seq<Scalar>, b: seq<Scalar>)
    requires Text(a) == Text(b)
    ensures a == b
  {
    if a != [] && b != [] {
      CharacterDecodes(a[0], b[0], Text(a[1..]), Text(b[1..]));
      DecodesOnce(a[1..], b[1..]);
      assert a == [a[0]] + a[1..] && b == [b[0]] + b[1..];
    }
  }

  /** As many whole characters from the start as fit. */
  ghost predicate LongestPrefix(cs: seq<Scalar>, bound: nat, r: seq<byte>) {
    exists k :: 0 <= k <= |cs| && r == Text(cs[..k]) && |r| <= bound && (k < |cs| ==> Offset(cs, k + 1) > bound)
  }

  /** As many whole characters from the end as fit. */
  ghost predicate LongestSuffix(cs: seq<Scalar>, bound: nat, r: seq<byte>) {
    exists k :: 0 <= k <= |cs| && r == Text(cs[k..]) && |r| <= bound && (k > 0 ==> |Text(cs[k - 1..])| > bound)
  }

  method TruncateAtCharBoundary(s: seq<byte>, maxBytes: nat) returns (r: seq<byte>)
    requires IsUtf8(s)
    ensures forall cs :: Text(cs) == s ==> LongestPrefix(cs, maxBytes, r)
    ensures |s| <= maxBytes ==> r == s
    ensures |s| > maxBytes ==> |r| >= maxBytes - 3
  {
    ghost var cs :| Text(cs) == s;
    if |s| <= maxBytes {
      assert cs[..|cs|] == cs;
      forall other | Text(other) == s ensures LongestPrefix(other, maxBytes, s) {
        DecodesOnce(cs, other);
        assert s == Text(cs[..|cs|]);
      }
      return s;
    }
    var end := maxBytes;
    ghost var k := CharacterAt(cs, maxBytes);
    while end > 0 && !IsCharBoundary(s, end)
      invariant Offset(cs, k) <= end <= maxBytes
    {
      BoundaryIffCharacterStart(cs, end);
      end := end - 1;
    }
    BoundaryIffCharacterStart(cs, end);
    StartWithin(cs, k, end);
    TextSplits(cs, k);
    assert s[..end] == Text(cs[..k]);
    forall other | Text(other) == s ensures LongestPrefix(other, maxBytes, s[..end]) {
      DecodesOnce(cs, other);
    }
    r := s[..end];
  }

  /** The only start of a character before the next one. */
  lemma StartWithin(cs: seq<Scalar>, k: nat, i: nat)
    requires k < |cs| && Offset(cs, k) <= i < Offset(cs, k + 1)
    requires exists j :: 0 <= j <= |cs| && Offset(cs, j) == i
    ensures i == Offset(cs, k)
  {
    var j :| 0 <= j <= |cs| && Offset(cs, j) == i;
    if j < k {
      OffsetsGrow(cs, j, k);
    } else if k + 1 < j {
      OffsetsGrow(cs, k + 1, j);
    }
  }

  method TruncateAtCharBoundaryFromEnd(s: seq<byte>, maxBytes: nat) returns (r: seq<byte>)
    requires IsUtf8(s)
    ensures forall cs :: Text(cs) == s ==> LongestSuffix(cs, maxBytes, r)
    ensures |s| <= maxBytes ==> r == s
    ensures |s| > maxBytes ==> |r| >= maxBytes - 3
  {
    ghost var cs :| Text(cs) == s;
    if |s| <= maxBytes {
      forall other | Text(other) == s ensures LongestSuffix(other, maxBytes, s) {
        DecodesOnce(cs, other);
        assert cs[0..] == cs;
      }
      return s;
    }
    var start := |s| - maxBytes;
    ghost var from := start;
    ghost var k := NextStart(cs, start);
    TextSplits(cs, k);
    while start < |s| && !IsCharBoundary(s, start)
      invariant from <= start <= Offset(cs, k) <= |s|
    {
      BoundaryIffCharacterStart(cs, start);
      start := start + 1;
    }
    BoundaryIffCharacterStart(cs, start);
    if k > 0 && start < Offset(cs, k) {
      StartWithin(cs, k - 1, start);
    }
    assert s[start..] == Text(cs[k..]);
    if k > 0 {
      TextSplits(cs, k - 1);
    }
    forall other | Text(other) == s ensures LongestSuffix(other, maxBytes, s[start..]) {
      DecodesOnce(cs, other);
    }
    r := s[start..];
  }

  /** The first start of a character at or after a position. */
  lemma NextStart(cs: seq<Scalar>, i: nat) returns (k: nat)
    requires i <= |Text(cs)|
    ensures k <= |cs| && i <= Offset(cs, k) <= i + 3
    ensures k > 0 ==> Offset(cs, k - 1) < i
  {
    assert cs[..|cs|] == cs && Offset(cs, 0) == 0;
    if i == 0 {
      k := 0;
    } else {
      k := CharacterAt(cs, i - 1);
      k := k + 1;
    }
  }

  /** A head and a tail that share out all the bytes meet exactly at a boundary; otherwise one character is lost. */
  lemma HeadAndTailMeetIff(cs: seq<Scalar>, n: nat, head: seq<byte>, tail: seq<byte>)
    requires n <= |Text(cs)|
    requires LongestPrefix(cs, n, head) && LongestSuffix(cs, |Text(cs)| - n, tail)
    ensures head + tail == Text(cs) <==> IsCharBoundary(Text(cs), n)
    ensures head + tail == Text(cs) || exists k :: 0 <= k < |cs| && head + Encode(cs[k]) + tail == Text(cs)
  {
    var j :| 0 <= j <= |cs| && head == Text(cs[..j]) && |head| <= n && (j < |cs| ==> Offset(cs, j + 1) > n);
    var k :| 0 <= k <= |cs| && tail == Text(cs[k..]) && |tail| <= |Text(cs)| - n
      && (k > 0 ==> |Text(cs[k - 1..])| > |Text(cs)| - n);
    TextSplits(cs, k);
    if k > 0 {
      TextSplits(cs, k - 1);
    }
    HeadAndTailAt(cs, n, j, k);
  }

  lemma HeadAndTailAt(cs: seq<Scalar>, n: nat, j: nat, k: nat)
    requires j <= |cs| && k <= |cs| && n <= |Text(cs)|
    requires Offset(cs, j) <= n && (j < |cs| ==> n < Offset(cs, j + 1))
    requires n <= Offset(cs, k) && (k > 0 ==> Offset(cs, k - 1) < n)
    ensures Text(cs[..j]) + Text(cs[k..]) == Text(cs) <==> IsCharBoundary(Text(cs), n)
    ensures Text(cs[..j]) + Text(cs[k..]) == Text(cs)
         || exists i :: 0 <= i < |cs| && Text(cs[..j]) + Encode(cs[i]) + Text(cs[k..]) == Text(cs)
  {
    hide Text;
    hide Encode;
    if k < j {
      OffsetsGrow(cs, k, j);
    } else if j + 1 < k {
      OffsetsGrow(cs, j + 1, k - 1);
    }
    BoundaryIffCharacterStart(cs, n);
    TextSplits(cs, j);
    if k == j + 1 {
      OneMoreCharacter(cs, j);
      assert Text(cs[..j]) + (Encode(cs[j]) + Text(cs[k..])) == Text(cs[..j]) + Encode(cs[j]) + Text(cs[k..]);
      assert |Text(cs)| == |Text(cs[..j])| + |Encode(cs[j])| + |Text(cs[k..])|;
      if IsCharBoundary(Text(cs), n) {
        StartWithin(cs, j, n);
      }
    }
  }
}
