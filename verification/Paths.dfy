/** Paths as their components, on Unix: how they are read, printed, prefixed and stripped. */
module Paths {
  import opened Sequences
  import opened Splitting

  datatype Component = RootDir | CurDir | ParentDir | Normal(name: string)

  type Path = seq<Component>

  // ----- Reading and printing -----

  /** A piece between slashes; empty pieces and dots name nothing. */
  function Piece(s: string): seq<Component> {
    if s == "" || s == "." then [] else if s == ".." then [ParentDir] else [Normal(s)]
  }

  function Pieces(ps: seq<string>): Path {
    if ps == [] then [] else Piece(ps[0]) + Pieces(ps[1..])
  }

  /** The components of a path's text. A dot counts only at the start of a relative path. */
  function Components(text: string): Path {
    var ps := Split(text, '/');
    if text != [] && text[0] == '/' then [RootDir] + Pieces(ps)
    else if ps[0] == "." then [CurDir] + Pieces(ps)
    else Pieces(ps)
  }

  function ComponentText(c: Component): string {
    match c
    case RootDir => "/"
    case CurDir => "."
    case ParentDir => ".."
    case Normal(name) => name
  }

  /** Appending a component to a path's text: a root replaces it, others follow a slash. */
  function Push(text: string, c: Component): string {
    if c == RootDir then ComponentText(c)
    else if text != [] && text[|text| - 1] != '/' then text + "/" + ComponentText(c)
    else text + ComponentText(c)
  }

  /** The text of a path that is collected from components. */
  function Render(path: Path): string {
    if path == [] then "" else Push(Render(path[..|path| - 1]), path[|path| - 1])
  }

  function WithoutDots(path: Path): Path {
    if path == [] then []
    else if path[0] == CurDir then WithoutDots(path[1..])
    else [path[0]] + WithoutDots(path[1..])
  }

  /** The components a file is printed with. */
  function Normalized(text: string): Path {
    WithoutDots(Components(text))
  }

  predicate IsStep(c: Component) {
    match c
    case ParentDir => true
    case Normal(name) => name != "" && name != "." && name != ".." && '/' !in name
    case _ => false
  }

  /** What `Normalized` yields: an optional root, then steps. */
  ghost predicate Plain(path: Path) {
    forall i :: 0 <= i < |path| ==> IsStep(path[i]) || (i == 0 && path[i] == RootDir)
  }

  ghost predicate Steps(path: Path) {
    forall i :: 0 <= i < |path| ==> IsStep(path[i])
  }

  function StepTexts(path: Path): seq<string> {
    if path == [] then [] else [ComponentText(path[0])] + StepTexts(path[1..])
  }

  lemma {:induction false} PiecesAreSteps(ps: seq<string>)
    requires forall i :: 0 <= i < |ps| ==> '/' !in ps[i]
    ensures Steps(Pieces(ps))
  {
    if ps != [] {
      PiecesAreSteps(ps[1..]);
    }
  }

  lemma {:induction false} StepsHaveNoDots(path: Path)
    requires Steps(path)
    ensures WithoutDots(path) == path
  {
    if path != [] {
      StepsHaveNoDots(path[1..]);
    }
  }

  lemma NormalizedIsPlain(text: string)
    ensures Plain(Normalized(text))
    ensures Normalized(text) == (if text != [] && text[0] == '/' then [RootDir] else []) + Pieces(Split(text, '/'))
  {
    var ps := Split(text, '/');
    SplitPieces(text, '/');
    PiecesAreSteps(ps);
    StepsHaveNoDots(Pieces(ps));
    assert Components(text)[..] == Components(text);
  }

  lemma {:induction false} PiecesOfTexts(path: Path)
    requires Steps(path)
    ensures Pieces(StepTexts(path)) == path
    ensures |StepTexts(path)| == |path|
    ensures forall i :: 0 <= i < |path| ==> StepTexts(path)[i] == ComponentText(path[i])
  {
    if path != [] {
      var first, rest := ComponentText(path[0]), StepTexts(path[1..]);
      PiecesOfTexts(path[1..]);
      PiecesCons(first, rest);
      HeadAndTail(path);
      assert StepTexts(path) == [first] + rest && Piece(first) == [path[0]];
      hide *;
    }
  }

  lemma PiecesCons(p: string, ps: seq<string>)
    ensures Pieces([p] + ps) == Piece(p) + Pieces(ps)
  {
    TailOfCons(p, ps);
  }

  lemma {:induction false} JoinSnoc(cells: seq<string>, last: string, sep: char)
    ensures Join(cells + [last], sep) == if cells == [] then last else Join(cells, sep) + [sep] + last
  {
    if cells != [] {
      assert (cells + [last])[1..] == cells[1..] + [last];
      JoinSnoc(cells[1..], last, sep);
    }
  }

  lemma {:induction false} TextsSnoc(path: Path, c: Component)
    ensures StepTexts(path + [c]) == StepTexts(path) + [ComponentText(c)]
  {
    if path == [] {
      assert StepTexts([c]) == [ComponentText(c)] + StepTexts([]) by { assert [c][1..] == []; }
      assert path + [c] == [c];
    } else {
      assert (path + [c])[1..] == path[1..] + [c];
      TextsSnoc(path[1..], c);
    }
  }

  /** Printing joins the steps with slashes, after the root if there is one. */
  lemma {:induction false} RenderSteps(path: Path)
    requires Steps(path)
    ensures Render(path) == Join(StepTexts(path), '/')
    ensures path != [] ==> Render(path) != [] && Render(path)[|Render(path)| - 1] != '/' && Render(path)[0] != '/'
  {
    if path != [] {
      var before, c := path[..|path| - 1], path[|path| - 1];
      RenderSteps(before);
      assert path == before + [c];
      TextsSnoc(before, c);
      JoinSnoc(StepTexts(before), ComponentText(c), '/');
      PiecesOfTexts(before);
      assert before != [] <==> StepTexts(before) != [];
      PushStep(Render(before), c);
      assert Render(path) == Push(Render(before), c);
      hide Push;
      hide StepTexts;
      hide Render;
    }
  }

  lemma PushStep(text: string, c: Component)
    requires IsStep(c) && (text != [] ==> text[0] != '/' && text[|text| - 1] != '/')
    ensures Push(text, c) == if text == [] then ComponentText(c) else text + ['/'] + ComponentText(c)
    ensures var r := Push(text, c); r != [] && r[|r| - 1] != '/' && r[0] != '/'
  {
    assert ComponentText(c) != [] && '/' !in ComponentText(c);
    var t := ComponentText(c);
    assert t[0] in t && t[|t| - 1] in t;
  }

  lemma RenderSnoc(path: Path, c: Component)
    ensures Render(path + [c]) == Push(Render(path), c)
    ensures Render([]) == ""
  {
    assert (path + [c])[..|path + [c]| - 1] == path;
  }

  lemma {:induction false} RenderRooted(path: Path)
    requires Steps(path)
    ensures Render([RootDir] + path) == "/" + Render(path)
  {
    if path == [] {
      RenderSnoc([], RootDir);
      assert [RootDir] + path == [] + [RootDir];
    } else {
      InitAndLast(path);
      RenderRooted(path[..|path| - 1]);
      RenderRootedStep(path[..|path| - 1], path[|path| - 1]);
      hide *;
    }
  }

  lemma RenderRootedStep(before: Path, c: Component)
    requires Steps(before) && IsStep(c) && Render([RootDir] + before) == "/" + Render(before)
    ensures Render([RootDir] + (before + [c])) == "/" + Render(before + [c])
  {
    RenderSteps(before);
    RenderSnoc(before, c);
    RenderSnoc([RootDir] + before, c);
    Associative([RootDir], before, [c]);
    PushBehind("/", Render(before), c);
    hide Render;
    hide Push;
  }

  /** Pushing a step looks only at the end of the text. */
  lemma PushBehind(front: string, text: string, c: Component)
    requires c != RootDir
    requires text != [] || (front != [] && front[|front| - 1] == '/')
    ensures Push(front + text, c) == front + Push(text, c)
  {
    if text == [] {
      assert front + text == front;
    } else {
      assert (front + text)[|front + text| - 1] == text[|text| - 1];
    }
  }

  /** The text of a plain path names it: reading it back gives the path. */
  lemma RenderIsReadable(path: Path)
    requires Plain(path)
    ensures Normalized(Render(path)) == path
    ensures Render(path) == "" <==> path == []
    ensures path != [] ==> (Render(path)[0] == '/' <==> path[0] == RootDir)
  {
    if path != [] && path[0] == RootDir {
      RootedIsReadable(path[1..]);
      assert path == [RootDir] + path[1..];
    } else {
      RelativeIsReadable(path);
    }
  }

  lemma RelativeIsReadable(path: Path)
    requires Steps(path)
    ensures var text := Render(path); Normalized(text) == path && (text == "" <==> path == [])
    ensures path != [] ==> Render(path)[0] != '/'
  {
    RenderSnoc([], RootDir);
    RenderSteps(path);
    SplitOfSteps(path);
    NormalizedIsPlain(Render(path));
  }

  lemma RootedIsReadable(steps: Path)
    requires Steps(steps)
    ensures var text := Render([RootDir] + steps);
      Normalized(text) == [RootDir] + steps && text != [] && text[0] == '/'
  {
    RenderRooted(steps);
    SplitOfSteps(steps);
    hide Render;
    var rest := Render(steps);
    NormalizedIsPlain("/" + rest);
    SplitAtFirst("", rest, '/');
    assert "" + ['/'] + rest == "/" + rest;
    var ps := Split(rest, '/');
    assert ([""] + ps)[1..] == ps;
    assert Pieces([""] + ps) == Piece("") + Pieces(ps);
  }

  lemma NothingSplits()
    ensures Pieces(Split(Render([]), '/')) == []
  {
    assert Split("", '/') == [[]] && [""][1..] == [];
    assert Pieces([""]) == Piece("") + Pieces([]);
  }

  lemma SplitOfSteps(path: Path)
    requires Steps(path)
    ensures Pieces(Split(Render(path), '/')) == path
  {
    if path == [] {
      NothingSplits();
    } else {
      RenderSteps(path);
      PiecesOfTexts(path);
      TextsHaveNoSlash(path);
      var texts := StepTexts(path);
      hide *;
      SplitJoin(texts, '/');
    }
  }

  lemma TextsHaveNoSlash(path: Path)
    requires Steps(path)
    ensures |StepTexts(path)| == |path| && forall i :: 0 <= i < |path| ==> '/' !in StepTexts(path)[i]
  {
    PiecesOfTexts(path);
    hide StepTexts;
  }

  lemma RenderInjective(p: Path, q: Path)
    requires Plain(p) && Plain(q) && Render(p) == Render(q)
    ensures p == q
  {
    RenderIsReadable(p);
    RenderIsReadable(q);
  }

  /** Appending a relative path to a non-empty prefix, as text. */
  function Attach(prefix: string, rest: string): string {
    if prefix != [] && prefix[|prefix| - 1] == '/' then prefix + rest else prefix + "/" + rest
  }

  lemma {:induction false} RenderAttach(prefix: Path, rest: Path)
    requires Plain(prefix) && prefix != [] && Steps(rest) && rest != []
    ensures Render(prefix + rest) == Attach(Render(prefix), Render(rest))
  {
    hide Render;
    hide Normalized;
    var before, c := rest[..|rest| - 1], rest[|rest| - 1];
    assert rest == before + [c];
    assert prefix + rest == prefix + before + [c];
    RenderSnoc(prefix + before, c);
    RenderSnoc(before, c);
    RenderSteps(before);
    if before == [] {
      assert prefix + before == prefix;
      RenderIsReadable(prefix);
    } else {
      RenderAttach(prefix, before);
      AttachPush(Render(prefix), Render(before), c);
    }
  }

  lemma AttachPush(front: string, text: string, c: Component)
    requires c != RootDir && text != []
    ensures Push(Attach(front, text), c) == Attach(front, Push(text, c))
  {
    if front != [] && front[|front| - 1] == '/' {
      PushBehind(front, text, c);
    } else {
      PushBehind(front + "/", text, c);
    }
  }

  // ----- The common prefix -----

  function MatchLen(a: Path, b: Path): (n: nat)
    ensures n <= |a| && n <= |b|
  {
    if a == [] || b == [] || a[0] != b[0] then 0 else 1 + MatchLen(a[1..], b[1..])
  }

  lemma {:induction false} MatchLenIsLongest(a: Path, b: Path, p: Path)
    ensures a[..MatchLen(a, b)] <= b
    ensures p <= a && p <= b <==> p <= a[..MatchLen(a, b)]
  {
    assert p != [] && p <= a && p <= b ==> a != [] && b != [] && a[0] == p[0] == b[0];
    if a != [] && b != [] && a[0] == b[0] {
      MatchLenIsLongest(a[1..], b[1..], if p == [] then [] else p[1..]);
      var n := MatchLen(a[1..], b[1..]);
      assert a == [a[0]] + a[1..] && b == [b[0]] + b[1..];
      assert a[..n + 1] == [a[0]] + a[1..][..n];
      if p != [] {
        assert p == [p[0]] + p[1..];
      }
    } else {
      assert a[..0] == [];
    }
  }

  /** The directory of a path; nothing for a bare root or an empty path. */
  function Parent(p: Path): Path {
    if p == [] || p[|p| - 1] == RootDir then [] else p[..|p| - 1]
  }

  ghost predicate Shared(p: Path, paths: seq<Path>) {
    forall q :: q in paths ==> p <= q
  }

  /** The shared prefix of the paths that every shared prefix is a part of. */
  ghost predicate IsLongestSharedPrefix(prefix: Path, paths: seq<Path>) {
    forall p: Path :: Shared(p, paths) <==> p <= prefix
  }

  lemma SharedPrefixUnique(a: Path, b: Path, paths: seq<Path>)
    requires IsLongestSharedPrefix(a, paths) && IsLongestSharedPrefix(b, paths)
    ensures a == b
  {
    assert Shared(a, paths) && Shared(b, paths);
    assert a <= b && b <= a;
  }

  function Narrow(prefix: Path, paths: seq<Path>): Path
    decreases |paths|
  {
    if paths == [] then prefix else Narrow(prefix[..MatchLen(prefix, paths[0])], paths[1..])
  }

  /** The prefix the program strips: of several paths the shared one, of one path its directory. */
  function CommonPathPrefix(paths: seq<Path>): Path {
    if paths == [] then []
    else if |paths| == 1 then Parent(paths[0])
    else Narrow(paths[0], paths[1..])
  }

  lemma SharedCons(p: Path, paths: seq<Path>)
    requires paths != []
    ensures Shared(p, paths) <==> p <= paths[0] && Shared(p, paths[1..])
  {
    if Shared(p, paths) {
      assert paths[0] in paths;
      assert forall q :: q in paths[1..] ==> q in paths;
    } else {
      var q :| q in paths && !(p <= q);
      assert q == paths[0] || q in paths[1..];
    }
  }

  lemma {:induction false} NarrowIsShared(prefix: Path, paths: seq<Path>, p: Path)
    ensures p <= Narrow(prefix, paths) <==> p <= prefix && Shared(p, paths)
    decreases |paths|
  {
    if paths != [] {
      NarrowIsShared(prefix[..MatchLen(prefix, paths[0])], paths[1..], p);
      MatchLenIsLongest(prefix, paths[0], p);
      SharedCons(p, paths);
    }
  }

  /** Of two or more paths the prefix is the longest shared one. */
  lemma CommonPrefixIsLongest(paths: seq<Path>)
    requires |paths| >= 2
    ensures IsLongestSharedPrefix(CommonPathPrefix(paths), paths)
  {
    forall p: Path
      ensures Shared(p, paths) <==> p <= CommonPathPrefix(paths)
    {
      SharedCons(p, paths);
      NarrowIsShared(paths[0], paths[1..], p);
    }
  }

  /** So it does not depend on the order of the paths, nor on how often each occurs. */
  lemma CommonPrefixIgnoresOrder(a: seq<Path>, b: seq<Path>)
    requires |a| >= 2 && |b| >= 2
    requires forall q :: q in a <==> q in b
    ensures CommonPathPrefix(a) == CommonPathPrefix(b)
  {
    CommonPrefixIsLongest(a);
    CommonPrefixIsLongest(b);
    assert forall p: Path :: Shared(p, a) <==> Shared(p, b);
    SharedPrefixUnique(CommonPathPrefix(a), CommonPathPrefix(b), b);
  }

  lemma OneMoreMatch(a: Path, b: Path, n: nat)
    requires n < |a| && n < |b| && a[n] == b[n]
    ensures MatchLen(a[n..], b[n..]) == 1 + MatchLen(a[n + 1..], b[n + 1..])
  {
    assert a[n..][1..] == a[n + 1..] && b[n..][1..] == b[n + 1..];
  }

  lemma NoMoreMatch(a: Path, b: Path, n: nat)
    requires n <= |a| && n <= |b| && !(n < |a| && n < |b| && a[n] == b[n])
    ensures MatchLen(a[n..], b[n..]) == 0
  {
  }

  lemma NarrowByNone(prefix: Path, paths: seq<Path>)
    ensures paths == [] ==> Narrow(prefix, paths) == prefix
  {
  }

  /** One more path narrows the prefix to what it shares. */
  lemma NarrowOnce(components: Path, n: nat, paths: seq<Path>, k: nat)
    requires n <= |components| && k < |paths|
    ensures var m := MatchLen(components, paths[k]);
      Narrow(components[..n], paths[k..]) == Narrow(components[..if m < n then m else n], paths[k + 1..])
  {
    MatchOfTake(components, n, paths[k]);
    var m := MatchLen(components[..n], paths[k]);
    assert components[..n][..m] == components[..m];
    assert paths[k..][0] == paths[k] && paths[k..][1..] == paths[k + 1..];
    hide MatchLen;
  }

  /** How many components match from the start. */
  method CountMatches(components: Path, other: Path) returns (matchLen: nat)
    ensures matchLen == MatchLen(components, other) <= |components|
  {
    hide MatchLen;
    matchLen := 0;
    while matchLen < |components| && matchLen < |other| && components[matchLen] == other[matchLen]
      invariant matchLen <= |components| && matchLen <= |other|
      invariant MatchLen(components, other) == matchLen + MatchLen(components[matchLen..], other[matchLen..])
    {
      OneMoreMatch(components, other, matchLen);
      matchLen := matchLen + 1;
    }
    NoMoreMatch(components, other, matchLen);
  }

  /** The same prefix, computed by the program's loops. */
  method FindCommonPathPrefix(paths: seq<Path>) returns (prefix: Path)
    ensures prefix == CommonPathPrefix(paths)
    ensures |paths| >= 2 ==> IsLongestSharedPrefix(prefix, paths)
  {
    if |paths| == 0 {
      return [];
    }
    if |paths| == 1 {
      return Parent(paths[0]);
    }
    var components := paths[0];
    var prefixLen := |components|;
    assert components[..prefixLen] == components;
    assert Narrow(components, paths[1..]) == CommonPathPrefix(paths);
    hide MatchLen;
    hide CommonPathPrefix;
    hide Narrow;
    for k := 1 to |paths|
      invariant 0 <= prefixLen <= |components|
      invariant Narrow(components[..prefixLen], paths[k..]) == CommonPathPrefix(paths)
    {
      var matchLen := CountMatches(components, paths[k]);
      NarrowOnce(components, prefixLen, paths, k);
      prefixLen := if matchLen < prefixLen then matchLen else prefixLen;
    }
    NarrowByNone(components[..prefixLen], paths[|paths|..]);
    CommonPrefixIsLongest(paths);
    hide *;
    prefix := [];
    for k := 0 to prefixLen
      invariant prefix == components[..k]
    {
      TakeOneMore(components, k);
      prefix := prefix + [components[k]];
    }
  }

  lemma {:induction false} MatchOfTake(a: Path, n: nat, b: Path)
    requires n <= |a|
    ensures MatchLen(a[..n], b) == if MatchLen(a, b) < n then MatchLen(a, b) else n
  {
    if n > 0 && b != [] && a[0] == b[0] {
      MatchOfTake(a[1..], n - 1, b[1..]);
      assert a[..n][1..] == a[1..][..n - 1];
    }
  }

  // ----- Stripping -----

  /** The displayed path: without the prefix, unless nothing would be left. */
  function StripPrefixDisplay(path: Path, prefix: Path): string {
    if prefix == [] then Render(path)
    else if prefix <= path && path[|prefix|..] != [] then Render(path[|prefix|..])
    else Render(path)
  }

  lemma PlainPieces(path: Path, n: nat)
    requires Plain(path) && n <= |path|
    ensures Plain(path[..n])
    ensures n > 0 ==> Steps(path[n..])
  {
  }

  /** No path of the list lies properly below another. */
  ghost predicate Antichain(paths: seq<Path>) {
    forall p, q :: p in paths && q in paths && p <= q ==> p == q
  }

  /** On paths none of which lies below another, the displayed path names the path. */
  lemma StripIsInjective(paths: seq<Path>, p: Path, q: Path)
    requires forall x :: x in paths ==> Plain(x)
    requires Antichain(paths) && p in paths && q in paths
    requires StripPrefixDisplay(p, CommonPathPrefix(paths)) == StripPrefixDisplay(q, CommonPathPrefix(paths))
    ensures p == q
  {
    var prefix := CommonPathPrefix(paths);
    if |paths| >= 2 {
      CommonPrefixIsLongest(paths);
      assert Shared(prefix, paths);
      if prefix == [] || prefix == p || prefix == q {
        RenderInjectiveUnlessBelow(p, q, prefix);
      } else {
        PlainPieces(p, |prefix|);
        PlainPieces(q, |prefix|);
        RenderInjective(p[|prefix|..], q[|prefix|..]);
        assert p == prefix + p[|prefix|..] && q == prefix + q[|prefix|..];
      }
    }
  }

  lemma RenderInjectiveUnlessBelow(p: Path, q: Path, prefix: Path)
    requires Plain(p) && Plain(q)
    requires prefix == [] || ((prefix == p || prefix == q) && (p <= q ==> p == q) && (q <= p ==> p == q)
                              && prefix <= p && prefix <= q)
    requires prefix == [] ==> Render(p) == Render(q)
    ensures p == q
  {
    if prefix == [] {
      RenderInjective(p, q);
    }
  }
}
