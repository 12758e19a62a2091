/** Which manifest speaks for a project that has several. */
module ManifestRank {
  import opened Sequences
  import opened Options
  import opened Languages

  datatype ManifestKind =
    | TsConfig | PackageJson | CargoToml | GoMod | PyProject | SetupPy | RequirementsTxt | PomXml | BuildGradle
    | BuildGradleKts | Gemfile | ComposerJson | MixExs | PackageSwift | CmakeLists | MesonBuild | ConfigureAc
    | MakefileAm
    | CsProj | SlnFile | GlobalJson | BuildSbt | ScalaBuildProperties | DuneProject | OpamFile | Rockspec | Luarc
    | RojoProject | LuauRc

  const MANIFEST_PRECEDENCE: seq<ManifestKind> := [
    TsConfig, PackageJson, CargoToml, GoMod, PyProject, SetupPy, RequirementsTxt, PomXml, BuildGradleKts, BuildGradle,
    CmakeLists, MesonBuild, ConfigureAc, MakefileAm, CsProj, SlnFile, GlobalJson, BuildSbt, ScalaBuildProperties,
    DuneProject, OpamFile, Gemfile, ComposerJson, MixExs, PackageSwift, Rockspec, Luarc, RojoProject, LuauRc]

  /**
   A scanned directory: how deep it lies, the manifests it holds, and whether its `package.json` can be read and
   declares a TypeScript dependency.
   */
  datatype Directory = Directory(depth: nat, present: set<ManifestKind>, typescript: bool)

  /** What counting source files says where a manifest leaves it open. */
  datatype Facts = Facts(cFamily: Language, gradle: Language)

  function LanguageOf(m: ManifestKind, dir: Directory, facts: Facts): Language {
    match m
    case TsConfig => TypeScript
    case PackageJson => if dir.typescript then TypeScript else JavaScript
    case CargoToml => Rust
    case GoMod => Go
    case PyProject | SetupPy | RequirementsTxt => Python
    case PomXml => Java
    case BuildGradleKts => facts.gradle
    case BuildGradle => Java
    case Gemfile => Ruby
    case ComposerJson => Php
    case MixExs => Elixir
    case PackageSwift => Swift
    case CmakeLists | MesonBuild | ConfigureAc | MakefileAm => facts.cFamily
    case CsProj | SlnFile | GlobalJson => CSharp
    case BuildSbt | ScalaBuildProperties => Scala
    case DuneProject | OpamFile => Ocaml
    case Rockspec | Luarc => Lua
    case RojoProject | LuauRc => Luau
  }

  /** A manifest found: its place in the precedence list and its directory's place in the listing. */
  datatype Found = Found(kind: nat, dir: nat)

  predicate Holds(dirs: seq<Directory>, f: Found) {
    f.dir < |dirs| && f.kind < |MANIFEST_PRECEDENCE| && MANIFEST_PRECEDENCE[f.kind] in dirs[f.dir].present
  }

  /** Higher precedence first, then the shallower directory. */
  predicate Beats(dirs: seq<Directory>, f: Found, g: Found)
    requires f.dir < |dirs| && g.dir < |dirs|
  {
    f.kind < g.kind || (f.kind == g.kind && dirs[f.dir].depth < dirs[g.dir].depth)
  }

  /** Nothing beats it. */
  ghost predicate IsBest(dirs: seq<Directory>, f: Found) {
    Holds(dirs, f) && forall g :: Holds(dirs, g) ==> !Beats(dirs, g, f)
  }

  /** The best manifest listed first. */
  ghost predicate IsWinner(dirs: seq<Directory>, f: Found) {
    IsBest(dirs, f) && forall g :: IsBest(dirs, g) ==> f.dir <= g.dir
  }

  ghost predicate IsOpinion(dirs: seq<Directory>, facts: Facts, r: Option<Language>) {
    if exists f :: Holds(dirs, f)
    then exists f :: IsWinner(dirs, f) && r == Some(LanguageOf(MANIFEST_PRECEDENCE[f.kind], dirs[f.dir], facts))
    else r == None
  }

  /** Everything looked at so far: earlier directories, and the first manifests of this one. */
  predicate Seen(dirs: seq<Directory>, i: nat, k: nat, f: Found) {
    Holds(dirs, f) && (f.dir < i || (f.dir == i && f.kind < k))
  }

  ghost predicate BestSoFar(dirs: seq<Directory>, i: nat, k: nat, best: Option<Found>) {
    match best
    case None => forall f :: !Seen(dirs, i, k, f)
    case Some(b) =>
      Seen(dirs, i, k, b) &&
      forall f :: Seen(dirs, i, k, f) ==> !Beats(dirs, f, b) && (f != b && f.dir <= b.dir ==> Beats(dirs, b, f))
  }

  lemma NextKind(dirs: seq<Directory>, i: nat, k: nat, best: Option<Found>)
    requires i < |dirs| && k < |MANIFEST_PRECEDENCE| && BestSoFar(dirs, i, k, best)
    ensures var candidate := Found(k, i);
      BestSoFar(dirs, i, k + 1,
        if Holds(dirs, candidate) && (best.None? || Beats(dirs, candidate, best.value)) then Some(candidate) else best)
  {
    forall f ensures Seen(dirs, i, k + 1, f) <==> Seen(dirs, i, k, f) || (f == Found(k, i) && Holds(dirs, f)) {
    }
    hide Seen;
  }

  lemma NextDirectory(dirs: seq<Directory>, i: nat, best: Option<Found>)
    requires BestSoFar(dirs, i, |MANIFEST_PRECEDENCE|, best)
    ensures BestSoFar(dirs, i + 1, 0, best)
  {
    var all, next := |MANIFEST_PRECEDENCE|, i + 1;
    forall f ensures Seen(dirs, next, 0, f) <==> Seen(dirs, i, all, f) {
    }
    assert BestSoFar(dirs, next, 0, best);
  }

  lemma LastDirectory(dirs: seq<Directory>, facts: Facts, best: Option<Found>)
    requires BestSoFar(dirs, |dirs|, 0, best)
    ensures best.None? ==> IsOpinion(dirs, facts, None)
    ensures best.Some? ==>
      Holds(dirs, best.value) && IsWinner(dirs, best.value)
      && IsOpinion(dirs, facts, Some(LanguageOf(MANIFEST_PRECEDENCE[best.value.kind], dirs[best.value.dir], facts)))
  {
    forall f ensures Seen(dirs, |dirs|, 0, f) <==> Holds(dirs, f) {
    }
    hide LanguageOf;
    if best.Some? {
      assert IsBest(dirs, best.value);
      forall g | IsBest(dirs, g) ensures best.value.dir <= g.dir {
        assert Seen(dirs, |dirs|, 0, g);
      }
    }
  }

  method DetectFromManifests(dirs: seq<Directory>, facts: Facts) returns (r: Option<Language>)
    ensures IsOpinion(dirs, facts, r)
  {
    hide IsOpinion;
    hide IsWinner;
    var best: Option<Found> := None;
    for i := 0 to |dirs|
      invariant BestSoFar(dirs, i, 0, best)
    {
      for k := 0 to |MANIFEST_PRECEDENCE|
        invariant BestSoFar(dirs, i, k, best)
      {
        NextKind(dirs, i, k, best);
        if MANIFEST_PRECEDENCE[k] in dirs[i].present {
          var candidate := Found(k, i);
          if best.None? || Beats(dirs, candidate, best.value) {
            best := Some(candidate);
          }
        }
      }
      NextDirectory(dirs, i, best);
    }
    LastDirectory(dirs, facts, best);
    if best.None? {
      return None;
    }
    r := Some(LanguageOf(MANIFEST_PRECEDENCE[best.value.kind], dirs[best.value.dir], facts));
  }

  // ----- The order in which a directory lists its children -----

  /** A child of the root with its own children; their order is that of two directory listings. */
  datatype Child = Child(dir: Directory, below: seq<Directory>)
  datatype Project = Project(root: Directory, children: seq<Child>)

  ghost predicate WellPlaced(p: Project) {
    && p.root.depth == 0
    && forall c :: c in p.children ==> c.dir.depth == 1 && forall d :: d in c.below ==> d.depth == 2
  }

  function Children(cs: seq<Child>): (r: seq<Directory>)
    ensures |r| == |cs| && forall i :: 0 <= i < |cs| ==> r[i] == cs[i].dir
  {
    if cs == [] then [] else [cs[0].dir] + Children(cs[1..])
  }

  function Grandchildren(cs: seq<Child>): seq<Directory> {
    if cs == [] then [] else cs[0].below + Grandchildren(cs[1..])
  }

  /** The root, then its children, then theirs, child by child. */
  function Listing(p: Project): seq<Directory> {
    [p.root] + Children(p.children) + Grandchildren(p.children)
  }

  method ListDirectories(p: Project) returns (dirs: seq<Directory>)
    ensures dirs == Listing(p)
  {
    dirs := [p.root];
    var n := |p.children|;
    ghost var children, below := Children(p.children), Grandchildren(p.children);
    hide Children;
    AllTaken(children);
    for i := 0 to n
      invariant dirs == [p.root] + children[..i]
    {
      TakeOneMore(children, i);
      Associative([p.root], children[..i], [children[i]]);
      dirs := dirs + [p.children[i].dir];
    }
    ghost var shallow := dirs;
    AllTaken(p.children);
    for i := 0 to n
      invariant dirs + Grandchildren(p.children[i..]) == shallow + below
    {
      GrandchildrenStep(dirs, p.children, i);
      dirs := dirs + p.children[i].below;
    }
  }

  lemma GrandchildrenStep(dirs: seq<Directory>, cs: seq<Child>, i: nat)
    requires i < |cs|
    ensures dirs + Grandchildren(cs[i..]) == dirs + cs[i].below + Grandchildren(cs[i + 1..])
  {
    DropOne(cs, i);
    Associative(dirs, cs[i].below, Grandchildren(cs[i + 1..]));
  }

  function ShapesOf(cs: seq<Child>): (r: seq<(Directory, multiset<Directory>)>)
    ensures |r| == |cs| && forall i :: 0 <= i < |cs| ==> r[i] == (cs[i].dir, multiset(cs[i].below))
  {
    if cs == [] then [] else [(cs[0].dir, multiset(cs[0].below))] + ShapesOf(cs[1..])
  }

  /** The same project; every directory may list its children in another order. */
  ghost predicate Reordered(p: Project, p': Project) {
    p.root == p'.root && multiset(ShapesOf(p.children)) == multiset(ShapesOf(p'.children))
  }

  lemma {:induction false} ListsAppend(a: seq<Child>, b: seq<Child>)
    ensures Children(a + b) == Children(a) + Children(b)
    ensures Grandchildren(a + b) == Grandchildren(a) + Grandchildren(b)
    ensures ShapesOf(a + b) == ShapesOf(a) + ShapesOf(b)
  {
    if a == [] {
      assert a + b == b;
    } else {
      ListsAppend(a[1..], b);
      HeadAndTail(a);
      ListsAppendStep(a[0], a[1..], b);
      hide *;
    }
  }

  lemma ListsCons(c: Child, cs: seq<Child>)
    ensures Children([c] + cs) == [c.dir] + Children(cs)
    ensures Grandchildren([c] + cs) == c.below + Grandchildren(cs)
    ensures ShapesOf([c] + cs) == [(c.dir, multiset(c.below))] + ShapesOf(cs)
  {
    TailOfCons(c, cs);
  }

  lemma ListsAppendStep(c: Child, a: seq<Child>, b: seq<Child>)
    requires Children(a + b) == Children(a) + Children(b)
    requires Grandchildren(a + b) == Grandchildren(a) + Grandchildren(b)
    requires ShapesOf(a + b) == ShapesOf(a) + ShapesOf(b)
    ensures Children([c] + a + b) == Children([c] + a) + Children(b)
    ensures Grandchildren([c] + a + b) == Grandchildren([c] + a) + Grandchildren(b)
    ensures ShapesOf([c] + a + b) == ShapesOf([c] + a) + ShapesOf(b)
  {
    Associative([c], a, b);
    ListsCons(c, a + b);
    ListsCons(c, a);
    Associative([c.dir], Children(a), Children(b));
    Associative(c.below, Grandchildren(a), Grandchildren(b));
    Associative([(c.dir, multiset(c.below))], ShapesOf(a), ShapesOf(b));
    hide *;
  }

  /** Taking one child out of a listing. */
  lemma ChildOut(cs: seq<Child>, i: nat)
    requires i < |cs|
    ensures var c, rest := cs[i], cs[..i] + cs[i + 1..];
      && multiset(Children(cs)) == multiset{c.dir} + multiset(Children(rest))
      && multiset(Grandchildren(cs)) == multiset(c.below) + multiset(Grandchildren(rest))
      && multiset(ShapesOf(cs)) == multiset{(c.dir, multiset(c.below))} + multiset(ShapesOf(rest))
  {
    var c, before, after := cs[i], cs[..i], cs[i + 1..];
    assert cs == before + ([c] + after);
    ListsAppend(before, [c] + after);
    ListsAppend([c], after);
    ListsAppend(before, after);
    ListsOfOne(c);
    OutOfTheMiddle(Children(before), Children([c]), Children(after));
    OutOfTheMiddle(Grandchildren(before), Grandchildren([c]), Grandchildren(after));
    OutOfTheMiddle(ShapesOf(before), ShapesOf([c]), ShapesOf(after));
    hide Children;
    hide Grandchildren;
    hide ShapesOf;
  }

  lemma ListsOfOne(c: Child)
    ensures Children([c]) == [c.dir] && Grandchildren([c]) == c.below && ShapesOf([c]) == [(c.dir, multiset(c.below))]
  {
    assert [c][1..] == [];
  }

  lemma OutOfTheMiddle<T>(a: seq<T>, x: seq<T>, b: seq<T>)
    ensures multiset(a + (x + b)) == multiset(x) + multiset(a + b)
  {
  }

  lemma Cancel<T>(x: multiset<T>, a: multiset<T>, b: multiset<T>)
    requires x + a == x + b
    ensures a == b
  {
    assert a == (x + a) - x && b == (x + b) - x;
  }

  lemma {:induction false} SameShapesSameLists(cs: seq<Child>, cs': seq<Child>)
    requires multiset(ShapesOf(cs)) == multiset(ShapesOf(cs'))
    ensures multiset(Children(cs)) == multiset(Children(cs'))
    ensures multiset(Grandchildren(cs)) == multiset(Grandchildren(cs'))
    decreases |cs|
  {
    assert |multiset(ShapesOf(cs))| == |cs| && |multiset(ShapesOf(cs'))| == |cs'|;
    if cs != [] {
      var shape := ShapesOf(cs)[0];
      assert shape in multiset(ShapesOf(cs'));
      var j :| 0 <= j < |cs'| && ShapesOf(cs')[j] == shape;
      assert cs'[j].dir == cs[0].dir && multiset(cs'[j].below) == multiset(cs[0].below);
      ChildOut(cs, 0);
      ChildOut(cs', j);
      hide Children;
      hide Grandchildren;
      hide ShapesOf;
      var rest, rest' := cs[..0] + cs[1..], cs'[..j] + cs'[j + 1..];
      Cancel(multiset{shape}, multiset(ShapesOf(rest)), multiset(ShapesOf(rest')));
      SameShapesSameLists(rest, rest');
    }
  }

  lemma ReorderedListsTheSame(p: Project, p': Project)
    requires Reordered(p, p')
    ensures multiset(Listing(p)) == multiset(Listing(p'))
  {
    SameShapesSameLists(p.children, p'.children);
  }

  /** The deciding `package.json` files agree on whether they declare TypeScript, if it is they that decide. */
  ghost predicate AgreeOnTypeScript(dirs: seq<Directory>) {
    forall f, g :: IsBest(dirs, f) && IsBest(dirs, g) && MANIFEST_PRECEDENCE[f.kind] == PackageJson ==>
      dirs[f.dir].typescript == dirs[g.dir].typescript
  }

  lemma SomewhereElse(dirs: seq<Directory>, dirs': seq<Directory>, i: nat) returns (j: nat)
    requires multiset(dirs) == multiset(dirs') && i < |dirs|
    ensures j < |dirs'| && dirs'[j] == dirs[i]
  {
    assert dirs[i] in multiset(dirs');
    j :| 0 <= j < |dirs'| && dirs'[j] == dirs[i];
  }

  lemma HoldsElsewhere(dirs: seq<Directory>, dirs': seq<Directory>)
    requires multiset(dirs) == multiset(dirs')
    ensures (exists f :: Holds(dirs, f)) ==> exists f :: Holds(dirs', f)
  {
    if f :| Holds(dirs, f) {
      var j := SomewhereElse(dirs, dirs', f.dir);
      assert Holds(dirs', Found(f.kind, j));
    }
  }

  /** Being best does not depend on the order. */
  lemma BestElsewhere(dirs: seq<Directory>, dirs': seq<Directory>, f: Found, j: nat)
    requires multiset(dirs) == multiset(dirs') && IsBest(dirs, f)
    requires j < |dirs'| && dirs'[j] == dirs[f.dir]
    ensures IsBest(dirs', Found(f.kind, j))
  {
    var f' := Found(f.kind, j);
    forall g' | Holds(dirs', g') ensures !Beats(dirs', g', f') {
      var i := SomewhereElse(dirs', dirs, g'.dir);
      assert Holds(dirs, Found(g'.kind, i));
    }
  }

  lemma BestAreAlike(dirs: seq<Directory>, f: Found, g: Found)
    requires IsBest(dirs, f) && IsBest(dirs, g)
    ensures f.kind == g.kind && dirs[f.dir].depth == dirs[g.dir].depth
  {
    assert !Beats(dirs, f, g) && !Beats(dirs, g, f);
  }

  lemma {:induction false} EarliestBest(dirs: seq<Directory>, f: Found)
    requires IsBest(dirs, f)
    ensures exists w :: IsWinner(dirs, w)
    decreases f.dir
  {
    if g :| IsBest(dirs, g) && g.dir < f.dir {
      EarliestBest(dirs, g);
    } else {
      assert IsWinner(dirs, f);
    }
  }

  lemma LanguageAlike(m: ManifestKind, d: Directory, e: Directory, facts: Facts)
    ensures m != PackageJson || d.typescript == e.typescript ==> LanguageOf(m, d, facts) == LanguageOf(m, e, facts)
    ensures m == PackageJson && d.typescript != e.typescript ==> LanguageOf(m, d, facts) != LanguageOf(m, e, facts)
  {
  }

  lemma AgreeingOpinionsAgree(dirs: seq<Directory>, dirs': seq<Directory>, facts: Facts,
                              r: Option<Language>, r': Option<Language>)
    requires AgreeOnTypeScript(dirs) && multiset(dirs) == multiset(dirs')
    requires IsOpinion(dirs, facts, r) && IsOpinion(dirs', facts, r')
    ensures r == r'
  {
    hide LanguageOf;
    HoldsElsewhere(dirs, dirs');
    HoldsElsewhere(dirs', dirs);
    if f :| Holds(dirs, f) {
      var w :| IsWinner(dirs, w) && r == Some(LanguageOf(MANIFEST_PRECEDENCE[w.kind], dirs[w.dir], facts));
      var w' :| IsWinner(dirs', w') && r' == Some(LanguageOf(MANIFEST_PRECEDENCE[w'.kind], dirs'[w'.dir], facts));
      var i := SomewhereElse(dirs', dirs, w'.dir);
      BestElsewhere(dirs', dirs, w', i);
      BestAreAlike(dirs, w, Found(w'.kind, i));
      LanguageAlike(MANIFEST_PRECEDENCE[w.kind], dirs[w.dir], dirs[i], facts);
    }
  }

  /** The elements with one of them moved to the front. */
  function ToFront<T>(s: seq<T>, i: nat): (r: seq<T>)
    requires i < |s|
    ensures |r| == |s| && r[0] == s[i]
  {
    [s[i]] + s[..i] + s[i + 1..]
  }

  lemma ToFrontReorders<T>(s: seq<T>, i: nat)
    requires i < |s|
    ensures multiset(ToFront(s, i)) == multiset(s)
  {
    assert s == s[..i] + ([s[i]] + s[i + 1..]);
  }

  /** A child in another order of its own children, listed first. */
  function ChildInFront(p: Project, i: nat, c: Child): Project
    requires i < |p.children|
  {
    p.(children := [c] + (p.children[..i] + p.children[i + 1..]))
  }

  lemma ChildToFront(p: Project, i: nat, c: Child)
    requires i < |p.children| && c.dir == p.children[i].dir && multiset(c.below) == multiset(p.children[i].below)
    ensures Reordered(p, ChildInFront(p, i, c))
  {
    var rest := p.children[..i] + p.children[i + 1..];
    ChildOut(p.children, i);
    ListsCons(c, rest);
    hide ShapesOf;
  }

  lemma {:induction false} GrandchildAt(cs: seq<Child>, k: nat) returns (i: nat, j: nat)
    requires k < |Grandchildren(cs)|
    ensures i < |cs| && j < |cs[i].below| && cs[i].below[j] == Grandchildren(cs)[k]
  {
    if k < |cs[0].below| {
      i, j := 0, k;
    } else {
      i, j := GrandchildAt(cs[1..], k - |cs[0].below|);
      i := i + 1;
    }
  }

  lemma {:induction false} GrandchildrenAreDeep(cs: seq<Child>)
    requires forall c :: c in cs ==> forall d :: d in c.below ==> d.depth == 2
    ensures forall k :: 0 <= k < |Grandchildren(cs)| ==> Grandchildren(cs)[k].depth == 2
  {
    if cs != [] {
      GrandchildrenAreDeep(cs[1..]);
    }
  }

  lemma DepthsInOrder(p: Project)
    requires WellPlaced(p)
    ensures forall k :: 0 <= k < |Listing(p)| ==>
      Listing(p)[k].depth == if k == 0 then 0 else if k <= |p.children| then 1 else 2
  {
    GrandchildrenAreDeep(p.children);
  }

  /** Everything listed before is less deep. */
  ghost predicate FirstOfItsDepth(dirs: seq<Directory>, k: nat) {
    k < |dirs| && forall j :: 0 <= j < k ==> dirs[j].depth < dirs[k].depth
  }

  /** Any directory can be the first of its depth to be listed. */
  lemma CanComeFirst(p: Project, k: nat) returns (p': Project, first: nat)
    requires WellPlaced(p) && k < |Listing(p)|
    ensures WellPlaced(p') && Reordered(p, p')
    ensures FirstOfItsDepth(Listing(p'), first) && Listing(p')[first] == Listing(p)[k]
  {
    ListedAt(p, k);
    hide *;
    if k == 0 {
      SameOrder(p);
      p', first := p, 0;
    } else if k <= |p.children| {
      p' := ChildFirst(p, k - 1, p.children[k - 1]);
      first := 1;
    } else {
      p' := GrandchildFirst(p, k - 1 - |p.children|);
      first := 1 + |p.children|;
    }
    EarlierIsShallower(p', first);
  }

  lemma EarlierIsShallower(p: Project, first: nat)
    requires WellPlaced(p) && first < |Listing(p)|
    requires first == 0 || first == 1 || first == 1 + |p.children|
    requires first == 1 ==> p.children != []
    ensures FirstOfItsDepth(Listing(p), first)
  {
    DepthsInOrder(p);
    hide Listing;
    hide WellPlaced;
  }

  lemma SameOrder(p: Project)
    ensures Reordered(p, p)
  {
  }

  lemma GrandchildFirst(p: Project, k: nat) returns (p': Project)
    requires WellPlaced(p) && k < |Grandchildren(p.children)|
    ensures WellPlaced(p') && Reordered(p, p') && |p'.children| == |p.children|
    ensures |Listing(p')| > 1 + |p.children|
    ensures Listing(p')[1 + |p.children|] == Grandchildren(p.children)[k]
  {
    var i, j := GrandchildAt(p.children, k);
    var below := ToFront(p.children[i].below, j);
    ToFrontReorders(p.children[i].below, j);
    hide *;
    p' := ChildFirst(p, i, Child(p.children[i].dir, below));
  }

  lemma ListedAt(p: Project, k: nat)
    requires k < |Listing(p)|
    ensures var n := |p.children|;
      && (k == 0 ==> Listing(p)[k] == p.root)
      && (0 < k <= n ==> Listing(p)[k] == p.children[k - 1].dir)
      && (k > n ==> k - 1 - n < |Grandchildren(p.children)| && Listing(p)[k] == Grandchildren(p.children)[k - 1 - n])
  {
    hide Grandchildren;
  }

  lemma ChildFirst(p: Project, i: nat, c: Child) returns (p': Project)
    requires WellPlaced(p) && i < |p.children|
    requires c.dir == p.children[i].dir && multiset(c.below) == multiset(p.children[i].below)
    ensures WellPlaced(p') && Reordered(p, p') && |p'.children| == |p.children|
    ensures |Listing(p')| > 1 && Listing(p')[1] == c.dir
    ensures c.below != [] ==> |Listing(p')| > 1 + |p.children| && Listing(p')[1 + |p.children|] == c.below[0]
  {
    ChildToFront(p, i, c);
    ChildPlaced(p, i, c);
    p' := ChildInFront(p, i, c);
    hide WellPlaced;
    hide Reordered;
    ListsCons(c, p.children[..i] + p.children[i + 1..]);
    hide Children;
    hide Grandchildren;
  }

  lemma ChildPlaced(p: Project, i: nat, c: Child)
    requires WellPlaced(p) && i < |p.children|
    requires c.dir == p.children[i].dir && multiset(c.below) == multiset(p.children[i].below)
    ensures WellPlaced(ChildInFront(p, i, c))
  {
    assert p.children[i] in p.children;
    forall d | d in c.below ensures d.depth == 2 {
      assert d in multiset(c.below) && d in multiset(p.children[i].below);
    }
  }

  lemma DisagreementShows(p: Project, facts: Facts, w: Found, h: Found)
    requires WellPlaced(p) && IsWinner(Listing(p), w) && IsBest(Listing(p), h)
    requires MANIFEST_PRECEDENCE[w.kind] == PackageJson
    requires Listing(p)[w.dir].typescript != Listing(p)[h.dir].typescript
    ensures !OrderIrrelevant(p, facts)
  {
    var dirs := Listing(p);
    BestAreAlike(dirs, w, h);
    var p', first := CanComeFirst(p, h.dir);
    var dirs' := Listing(p');
    ReorderedListsTheSame(p, p');
    hide Listing;
    hide Reordered;
    hide WellPlaced;
    BestElsewhere(dirs, dirs', h, first);
    var w' := Found(h.kind, first);
    FirstBestWins(dirs', w');
    OpinionOf(dirs, w, facts);
    OpinionOf(dirs', w', facts);
    hide IsOpinion;
    hide IsBest;
    hide IsWinner;
    LanguageAlike(PackageJson, dirs[w.dir], dirs'[first], facts);
  }

  lemma FirstBestWins(dirs: seq<Directory>, f: Found)
    requires IsBest(dirs, f) && FirstOfItsDepth(dirs, f.dir)
    ensures IsWinner(dirs, f)
  {
    forall g | IsBest(dirs, g) ensures f.dir <= g.dir {
      BestAreAlike(dirs, f, g);
    }
  }

  lemma OpinionOf(dirs: seq<Directory>, w: Found, facts: Facts)
    requires IsWinner(dirs, w)
    ensures Holds(dirs, w)
    ensures IsOpinion(dirs, facts, Some(LanguageOf(MANIFEST_PRECEDENCE[w.kind], dirs[w.dir], facts)))
  {
    hide LanguageOf;
  }

  ghost predicate OrderIrrelevant(p: Project, facts: Facts) {
    forall p', r, r' ::
      Reordered(p, p') && IsOpinion(Listing(p), facts, r) && IsOpinion(Listing(p'), facts, r') ==> r == r'
  }

  /**
   The opinion depends on the order in which directories are listed exactly when the deciding manifests are
   `package.json` files of one depth that disagree about TypeScript.
   */
  lemma OrderIrrelevantIff(p: Project, facts: Facts)
    requires WellPlaced(p)
    ensures OrderIrrelevant(p, facts) <==> AgreeOnTypeScript(Listing(p))
  {
    var dirs := Listing(p);
    if AgreeOnTypeScript(dirs) {
      forall p', r, r' | Reordered(p, p') && IsOpinion(dirs, facts, r) && IsOpinion(Listing(p'), facts, r')
        ensures r == r'
      {
        ReorderedListsTheSame(p, p');
        AgreeingOpinionsAgree(dirs, Listing(p'), facts, r, r');
      }
    } else {
      var f, g :| IsBest(dirs, f) && IsBest(dirs, g) && MANIFEST_PRECEDENCE[f.kind] == PackageJson
        && dirs[f.dir].typescript != dirs[g.dir].typescript;
      EarliestBest(dirs, f);
      var w :| IsWinner(dirs, w);
      BestAreAlike(dirs, w, f);
      DisagreementShows(p, facts, w, if dirs[f.dir].typescript != dirs[w.dir].typescript then f else g);
    }
  }
}
