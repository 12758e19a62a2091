/** The pruned project walk, against the classification of single paths. */
module Walker {
  import opened Options
  import opened Languages

  /** Path components below the root. */
  type Path = seq<string>

  /** A link is not followed; it may point to a file. */
  datatype Node = File | Link(toFile: bool) | Dir(children: seq<Entry>)
  datatype Entry = Entry(name: string, node: Node)

  datatype PathClass = Eligible | Ignored | Hidden | Unsupported | Generated

  /** The two independent ignore matchers: what Git excludes, and what the project's own ignore files exclude. */
  datatype Matcher = Matcher(git: (Path, bool) -> bool, tldr: (Path, bool) -> bool)

  /**
   A configured walker. `deny` is absent when ignore files are not respected. `engine` stands for the directory
   traversal library's own decision to skip an entry; it knows about hidden names and ignore files.
   */
  datatype ProjectWalker = ProjectWalker(
    rootName: string,
    deny: Option<Matcher>,
    defaultIgnore: bool,
    excludeHidden: bool,
    maxDepth: Option<nat>,
    extensions: Option<set<string>>,
    langHint: Option<Language>,
    engine: (Path, bool) -> bool)

  const DEFAULT_EXCLUDE_DIRS: seq<string> := [
    "node_modules", "vendor", "target", "dist", "build", "out", "bin", "obj", ".next", ".nuxt", "dox", "__pycache__",
    "venv", "env", ".pytest_cache", ".tox", ".mypy_cache", ".ruff_cache", "coverage", ".coverage", ".gradle", ".git"]

  const GENERATED_DIR_SENTINELS: seq<string> := ["doxygen.css", "doxygen.svg"]

  const JS_TS_PRESERVED_DIRS: seq<string> := ["build", "dist", "out", "bin", "obj"]

  /** Names in a directory are distinct. */
  ghost predicate WellFormed(node: Node) {
    node.Dir? ==>
      && (forall i, j :: 0 <= i < j < |node.children| ==> node.children[i].name != node.children[j].name)
      && (forall i :: 0 <= i < |node.children| ==> WellFormed(node.children[i].node))
  }

  function Child(children: seq<Entry>, name: string): Option<Node> {
    if children == [] then None
    else if children[0].name == name then Some(children[0].node)
    else Child(children[1..], name)
  }

  /** What is found at a path. */
  function Lookup(node: Node, path: Path): Option<Node>
    decreases |path|
  {
    if path == [] then Some(node)
    else if !node.Dir? || Child(node.children, path[0]).None? then None
    else Lookup(Child(node.children, path[0]).value, path[1..])
  }

  // ----- Decisions about one path -----

  predicate IsIgnored(m: Matcher, path: Path, isDir: bool) {
    m.git(path, isDir) || m.tldr(path, isDir)
  }

  predicate HasSentinel(node: Node) {
    node.Dir? && exists i :: 0 <= i < |node.children| && node.children[i].name in GENERATED_DIR_SENTINELS
  }

  predicate NameExcluded(name: string, preserve: bool) {
    if preserve && name in JS_TS_PRESERVED_DIRS then false else name in DEFAULT_EXCLUDE_DIRS
  }

  function FileName(w: ProjectWalker, path: Path): string {
    if path == [] then w.rootName else path[|path| - 1]
  }

  function ClassifyExplicit(path: Path, name: string, node: Node, deny: Option<Matcher>, preserve: bool)
    : Option<PathClass>
  {
    if deny.Some? && IsIgnored(deny.value, path, node.Dir?) then Some(Ignored)
    else if node.Dir? && NameExcluded(name, preserve) then Some(Generated)
    else if node.Dir? && HasSentinel(node) then Some(Generated)
    else None
  }

  predicate IsJsTs(hint: Option<Language>) {
    hint == Some(JavaScript) || hint == Some(TypeScript)
  }

  predicate IsHiddenName(name: string) {
    name != [] && name[0] == '.' && name != "." && name != ".."
  }

  predicate ExtensionAllowed(w: ProjectWalker, name: string) {
    w.extensions.None? || (Extension(name).Some? && Extension(name).value in w.extensions.value)
  }

  predicate FiltersInstalled(w: ProjectWalker) {
    w.defaultIgnore || w.deny.Some?
  }

  function ClassifyPath(w: ProjectWalker, path: Path, node: Node): PathClass {
    if w.excludeHidden && IsHiddenName(FileName(w, path)) then Hidden
    else if FiltersInstalled(w)
      && ClassifyExplicit(path, FileName(w, path), node, w.deny, IsJsTs(w.langHint)).Some? then
      ClassifyExplicit(path, FileName(w, path), node, w.deny, IsJsTs(w.langHint)).value
    else if !node.Dir? && !ExtensionAllowed(w, FileName(w, path)) then Unsupported
    else Eligible
  }

  // ----- The walk -----

  /** The entry is dropped and, if a directory, not descended into. */
  predicate Skips(w: ProjectWalker, preserve: bool, path: Path, node: Node) {
    || w.engine(path, node.Dir?)
    || (FiltersInstalled(w) && ClassifyExplicit(path, FileName(w, path), node, w.deny, preserve).Some?)
  }

  /** The allow-list applies to files only. */
  predicate Keeps(w: ProjectWalker, path: Path, node: Node) {
    !node.File? || ExtensionAllowed(w, FileName(w, path))
  }

  predicate WithinDepth(w: ProjectWalker, path: Path) {
    w.maxDepth.None? || |path| <= w.maxDepth.value
  }

  /** The paths a walk yields at and below a directory entry that was not skipped; the root never is. */
  function WalkFrom(w: ProjectWalker, preserve: bool, path: Path, node: Node): seq<Path>
    decreases node, 1
  {
    (if Keeps(w, path, node) then [path] else []) +
    (if node.Dir? then WalkChildren(w, preserve, path, node.children) else [])
  }

  function WalkChildren(w: ProjectWalker, preserve: bool, path: Path, children: seq<Entry>): seq<Path>
    decreases children, 0
  {
    if children == [] then []
    else
      var below := path + [children[0].name];
      (if WithinDepth(w, below) && !Skips(w, preserve, below, children[0].node)
       then WalkFrom(w, preserve, below, children[0].node) else []) +
      WalkChildren(w, preserve, path, children[1..])
  }

  function Walk(w: ProjectWalker, preserve: bool, root: Node): seq<Path> {
    WalkFrom(w, preserve, [], root)
  }

  // ----- What a walk yields -----

  /** Every step from a node down to an entry below it is taken. */
  predicate Reaches(w: ProjectWalker, preserve: bool, path: Path, node: Node, rest: Path)
    decreases |rest|
  {
    rest == [] ||
    (node.Dir? && Child(node.children, rest[0]).Some? &&
     var below, child := path + [rest[0]], Child(node.children, rest[0]).value;
     WithinDepth(w, below) && !Skips(w, preserve, below, child) && Reaches(w, preserve, below, child, rest[1..]))
  }

  predicate Yields(w: ProjectWalker, preserve: bool, path: Path, node: Node, q: Path) {
    && path <= q
    && Reaches(w, preserve, path, node, q[|path|..])
    && Lookup(node, q[|path|..]).Some?
    && Keeps(w, q, Lookup(node, q[|path|..]).value)
  }

  predicate YieldsBelow(w: ProjectWalker, preserve: bool, path: Path, children: seq<Entry>, q: Path) {
    path < q && Yields(w, preserve, path, Dir(children), q)
  }

  lemma {:induction false} ChildrenHave(children: seq<Entry>, name: string)
    ensures Child(children, name).Some? ==>
      exists i :: 0 <= i < |children| && children[i] == Entry(name, Child(children, name).value)
    ensures (exists i :: 0 <= i < |children| && children[i].name == name) ==> Child(children, name).Some?
  {
    if children != [] && children[0].name != name {
      ChildrenHave(children[1..], name);
      if i :| 0 <= i < |children| && children[i].name == name {
        assert children[1..][i - 1].name == name;
      }
      if Child(children, name).Some? {
        var i :| 0 <= i < |children| - 1 && children[1..][i] == Entry(name, Child(children, name).value);
        assert children[i + 1] == Entry(name, Child(children, name).value);
      }
    }
  }

  lemma {:induction false} WalkYields(w: ProjectWalker, preserve: bool, path: Path, node: Node, q: Path)
    requires WellFormed(node)
    ensures q in WalkFrom(w, preserve, path, node) <==> Yields(w, preserve, path, node, q)
    decreases node, 1
  {
    if node.Dir? {
      ChildrenYield(w, preserve, path, node.children, q);
      assert Dir(node.children) == node;
    }
    assert path == q ==> q[|path|..] == [];
    assert path < q ==> q[|path|..] != [];
  }

  lemma {:induction false} ChildrenYield(w: ProjectWalker, preserve: bool, path: Path, children: seq<Entry>, q: Path)
    requires WellFormed(Dir(children))
    ensures q in WalkChildren(w, preserve, path, children) <==> YieldsBelow(w, preserve, path, children, q)
    decreases children, 0
  {
    if children != [] {
      var first, below := children[0], path + [children[0].name];
      assert WellFormed(Dir(children[1..]));
      ChildrenYield(w, preserve, path, children[1..], q);
      WalkYields(w, preserve, below, first.node, q);
      ChildrenHave(children[1..], first.name);
      YieldsStep(w, preserve, path, children, q);
      YieldsStep(w, preserve, path, children[1..], q);
      assert below <= q <==> path < q && q[|path|] == first.name;
      hide Skips;
      hide WellFormed;
      hide WithinDepth;
      hide YieldsBelow;
      hide Yields;
    }
  }

  /** The first step below a directory. */
  lemma YieldsStep(w: ProjectWalker, preserve: bool, path: Path, children: seq<Entry>, q: Path)
    ensures YieldsBelow(w, preserve, path, children, q) <==>
      && path < q
      && Child(children, q[|path|]).Some?
      && var below, child := path + [q[|path|]], Child(children, q[|path|]).value;
         WithinDepth(w, below) && !Skips(w, preserve, below, child) && Yields(w, preserve, below, child, q)
    ensures Yields(w, preserve, path, Dir(children), q) && path < q ==> path + [q[|path|]] <= q
    ensures forall below, node :: Yields(w, preserve, below, node, q) ==> below <= q
  {
    if path < q {
      var rest := q[|path|..];
      assert rest[1..] == q[|path| + 1..];
      assert path + [q[|path|]] <= q;
    }
  }

  lemma LookupStep(node: Node, rest: Path, i: nat)
    requires 0 < i <= |rest|
    ensures Lookup(node, rest[..i]) ==
      if node.Dir? && Child(node.children, rest[0]).Some?
      then Lookup(Child(node.children, rest[0]).value, rest[1..][..i - 1]) else None
  {
    assert rest[..i][1..] == rest[1..][..i - 1];
  }

  /** One step of the walk is allowed. */
  predicate StepTaken(w: ProjectWalker, preserve: bool, path: Path, found: Option<Node>) {
    found.Some? && WithinDepth(w, path) && !Skips(w, preserve, path, found.value)
  }

  lemma {:induction false} ReachesIff(w: ProjectWalker, preserve: bool, path: Path, node: Node, rest: Path)
    ensures Reaches(w, preserve, path, node, rest) <==>
      forall i :: 0 < i <= |rest| ==> StepTaken(w, preserve, path + rest[..i], Lookup(node, rest[..i]))
    decreases |rest|
  {
    if rest != [] {
      LookupStep(node, rest, 1);
      assert rest[..1] == [rest[0]];
      if node.Dir? && Child(node.children, rest[0]).Some? {
        var below, child := path + [rest[0]], Child(node.children, rest[0]).value;
        ReachesIff(w, preserve, below, child, rest[1..]);
        forall i | 1 < i <= |rest|
          ensures StepTaken(w, preserve, path + rest[..i], Lookup(node, rest[..i]))
             <==> StepTaken(w, preserve, below + rest[1..][..i - 1], Lookup(child, rest[1..][..i - 1]))
        {
          LookupStep(node, rest, i);
          assert path + rest[..i] == below + rest[1..][..i - 1];
        }
        forall i | 0 < i <= |rest| - 1
          ensures StepTaken(w, preserve, below + rest[1..][..i], Lookup(child, rest[1..][..i]))
             <==> StepTaken(w, preserve, path + rest[..i + 1], Lookup(node, rest[..i + 1]))
        {
          assert i + 1 - 1 == i;
        }
        hide StepTaken;
      }
    }
  }

  /** A walk yields an entry exactly when every step to it is taken and it passes the allow-list. */
  lemma WalkIff(w: ProjectWalker, preserve: bool, root: Node, q: Path)
    requires WellFormed(root)
    ensures q in Walk(w, preserve, root) <==>
      && Lookup(root, q).Some?
      && Keeps(w, q, Lookup(root, q).value)
      && forall i :: 0 < i <= |q| ==> StepTaken(w, preserve, q[..i], Lookup(root, q[..i]))
  {
    WalkYields(w, preserve, [], root, q);
    ReachesIff(w, preserve, [], root, q);
    assert q[0..] == q;
    assert forall i :: 0 < i <= |q| ==> [] + q[..i] == q[..i];
  }

  /** What is found on the way to something that is found. */
  lemma {:induction false} PrefixFound(node: Node, q: Path, i: nat)
    requires i <= |q| && Lookup(node, q).Some?
    ensures Lookup(node, q[..i]).Some?
    decreases |q|
  {
    if i > 0 {
      LookupStep(node, q, i);
      PrefixFound(Child(node.children, q[0]).value, q[1..], i - 1);
    }
  }

  // ----- Agreement with the classification of single paths -----

  /** Files of a project dominated by JavaScript or TypeScript are walked as if that hint were given. */
  function Effective(w: ProjectWalker, dominated: bool): ProjectWalker {
    if w.langHint.None? && dominated then w.(langHint := Some(JavaScript)) else w
  }

  function Iter(w: ProjectWalker, dominated: bool, root: Node): seq<Path> {
    Walk(w, (w.langHint.None? && dominated) || IsJsTs(w.langHint), root)
  }

  /** A walker that hides no names and is otherwise the same. */
  function Showing(w: ProjectWalker): ProjectWalker {
    w.(excludeHidden := false)
  }

  /** The name is one to be hidden. */
  predicate IsHidden(w: ProjectWalker, path: Path) {
    w.excludeHidden && IsHiddenName(FileName(w, path))
  }

  /** The library drops an entry that is neither hidden nor excluded by one of the ignore matchers. */
  predicate DropsAlone(w: ProjectWalker, path: Path, isDir: bool) {
    w.engine(path, isDir) && !IsHidden(w, path) && !(w.deny.Some? && IsIgnored(w.deny.value, path, isDir))
  }

  /** A link is yielded whatever its extension. */
  predicate Yieldable(node: Node, verdict: PathClass) {
    verdict == Eligible || (node.Link? && verdict == Unsupported)
  }

  predicate YieldableAt(w: ProjectWalker, dominated: bool, root: Node, path: Path) {
    Lookup(root, path).Some? &&
    Yieldable(Lookup(root, path).value, ClassifyPath(Effective(w, dominated), path, Lookup(root, path).value))
  }

  predicate EligibleAt(w: ProjectWalker, dominated: bool, root: Node, path: Path) {
    Lookup(root, path).Some? && ClassifyPath(Effective(w, dominated), path, Lookup(root, path).value) == Eligible
  }

  /** The classification accepts an entry within the depth limit, and every directory above it, below the root. */
  predicate Accepts(w: ProjectWalker, dominated: bool, root: Node, q: Path) {
    && WithinDepth(w, q)
    && YieldableAt(w, dominated, root, q)
    && forall i :: 0 < i < |q| ==> EligibleAt(w, dominated, root, q[..i])
  }

  predicate PassesAt(w: ProjectWalker, root: Node, path: Path) {
    Lookup(root, path).Some? && !DropsAlone(w, path, Lookup(root, path).value.Dir?)
  }

  /** The library does not drop what is found, for whatever reason. */
  predicate KeptAt(w: ProjectWalker, root: Node, path: Path) {
    Lookup(root, path).Some? && !w.engine(path, Lookup(root, path).value.Dir?)
  }

  lemma StepIsClass(w: ProjectWalker, dominated: bool, path: Path, node: Node)
    ensures !Skips(w, IsJsTs(Effective(w, dominated).langHint), path, node) <==>
      var verdict := ClassifyPath(Effective(Showing(w), dominated), path, node);
      (verdict == Eligible || verdict == Unsupported) && !w.engine(path, node.Dir?)
    ensures node.Dir? ==> ClassifyPath(Effective(w, dominated), path, node) != Unsupported
  {
  }

  /** One step of the walk, in terms of the classification. */
  lemma StepTakenIff(w: ProjectWalker, dominated: bool, root: Node, q: Path, i: nat)
    requires 0 < i <= |q| && Lookup(root, q).Some? && WithinDepth(w, q)
    ensures i < |q| ==>
      (StepTaken(w, IsJsTs(Effective(w, dominated).langHint), q[..i], Lookup(root, q[..i])) <==>
         EligibleAt(Showing(w), dominated, root, q[..i]) && KeptAt(w, root, q[..i]))
    ensures i == |q| ==>
      (&& StepTaken(w, IsJsTs(Effective(w, dominated).langHint), q, Lookup(root, q))
       && Keeps(w, q, Lookup(root, q).value) <==>
         YieldableAt(Showing(w), dominated, root, q) && KeptAt(w, root, q))
  {
    PrefixFound(root, q, i);
    assert q[..|q|] == q;
    StepIsClass(w, dominated, q[..i], Lookup(root, q[..i]).value);
    StepIsClass(Showing(w), dominated, q[..i], Lookup(root, q[..i]).value);
    if i < |q| {
      AboveIsDirectory(root, q, i);
    }
    hide Skips;
  }

  /**
   The pruned walk yields exactly what the classification accepts, hidden names aside, unless the library drops it or a
   directory above it.
   */
  lemma WalkIsWhatIsAccepted(w: ProjectWalker, dominated: bool, root: Node, q: Path)
    requires WellFormed(root) && q != []
    ensures q in Iter(w, dominated, root) <==>
      Accepts(Showing(w), dominated, root, q) && forall i :: 0 < i <= |q| ==> KeptAt(w, root, q[..i])
  {
    var preserve := IsJsTs(Effective(w, dominated).langHint);
    WalkIff(w, preserve, root, q);
    assert q[..|q|] == q;
    if Lookup(root, q).Some? && WithinDepth(w, q) {
      forall i | 0 < i <= |q|
        ensures i < |q| ==>
          (StepTaken(w, preserve, q[..i], Lookup(root, q[..i])) <==>
             EligibleAt(Showing(w), dominated, root, q[..i]) && KeptAt(w, root, q[..i]))
      {
        StepTakenIff(w, dominated, root, q, i);
      }
      StepTakenIff(w, dominated, root, q, |q|);
      hide StepTaken;
    } else if Lookup(root, q).Some? {
      assert !StepTaken(w, preserve, q[..|q|], Lookup(root, q[..|q|]));
    }
    hide EligibleAt;
    hide KeptAt;
    hide Keeps;
    hide Yieldable;
  }

  /** The walk agrees with the classification on every entry. */
  ghost predicate Agrees(w: ProjectWalker, dominated: bool, root: Node) {
    forall q :: q != [] ==> (q in Iter(w, dominated, root) <==> Accepts(w, dominated, root, q))
  }

  /** The library keeps an entry whose name is to be hidden, and nothing else speaks against it. */
  predicate Readmitted(w: ProjectWalker, dominated: bool, root: Node, q: Path) {
    && q != [] && WithinDepth(w, q)
    && IsHidden(w, q) && KeptAt(w, root, q) && YieldableAt(Showing(w), dominated, root, q)
    && forall i :: 0 < i < |q| ==> EligibleAt(w, dominated, root, q[..i])
  }

  lemma EligibleIsAccepted(w: ProjectWalker, dominated: bool, root: Node, q: Path, i: nat)
    requires WithinDepth(w, q) && 0 < i < |q|
    requires forall j :: 0 < j < |q| ==> EligibleAt(w, dominated, root, q[..j])
    ensures Accepts(w, dominated, root, q[..i])
  {
    EligibleIsYieldable(w, dominated, root, q[..i]);
    hide EligibleAt;
    hide YieldableAt;
    forall j | 0 < j < i ensures EligibleAt(w, dominated, root, q[..i][..j]) {
      assert q[..i][..j] == q[..j];
    }
  }

  lemma AcceptedAbove(w: ProjectWalker, dominated: bool, root: Node, q: Path, i: nat)
    requires Accepts(w, dominated, root, q) && 0 < i <= |q|
    ensures Accepts(w, dominated, root, q[..i])
  {
    if i < |q| {
      hide EligibleAt;
      EligibleIsAccepted(w, dominated, root, q, i);
    } else {
      assert q[..i] == q;
    }
  }

  lemma EligibleIsYieldable(w: ProjectWalker, dominated: bool, root: Node, path: Path)
    ensures EligibleAt(w, dominated, root, path) ==> YieldableAt(w, dominated, root, path)
  {
    hide ClassifyPath;
  }

  /** The classification hides names first; what it accepts is not ignored. */
  lemma HiddenFirst(w: ProjectWalker, dominated: bool, root: Node, path: Path)
    ensures EligibleAt(w, dominated, root, path) <==>
      EligibleAt(Showing(w), dominated, root, path) && !IsHidden(w, path)
    ensures YieldableAt(w, dominated, root, path) <==>
      YieldableAt(Showing(w), dominated, root, path) && !IsHidden(w, path)
    ensures YieldableAt(w, dominated, root, path) ==> (PassesAt(w, root, path) <==> KeptAt(w, root, path))
  {
    hide NameExcluded;
    hide HasSentinel;
  }

  /** What is accepted is what is accepted with hidden names shown, if no name on the way is hidden. */
  lemma AcceptedIffShown(w: ProjectWalker, dominated: bool, root: Node, q: Path)
    requires q != []
    ensures Accepts(w, dominated, root, q) <==>
      Accepts(Showing(w), dominated, root, q) && forall i :: 0 < i <= |q| ==> !IsHidden(w, q[..i])
  {
    assert q[..|q|] == q;
    HiddenFirst(w, dominated, root, q);
    forall i | 0 < i < |q|
      ensures EligibleAt(w, dominated, root, q[..i]) <==>
        EligibleAt(Showing(w), dominated, root, q[..i]) && !IsHidden(w, q[..i])
    {
      HiddenFirst(w, dominated, root, q[..i]);
    }
    hide EligibleAt;
    hide YieldableAt;
    hide IsHidden;
  }

  /** The first name to be hidden on the way. */
  lemma {:induction false} FirstHidden(w: ProjectWalker, q: Path, i: nat) returns (j: nat)
    requires 0 < i <= |q| && IsHidden(w, q[..i])
    ensures 0 < j <= i && IsHidden(w, q[..j]) && forall k :: 0 < k < j ==> !IsHidden(w, q[..k])
  {
    hide IsHidden;
    if k :| 0 < k < i && IsHidden(w, q[..k]) {
      j := FirstHidden(w, q, k);
    } else {
      j := i;
    }
  }

  /** Everything accepted passes the library. */
  ghost predicate AcceptedPass(w: ProjectWalker, dominated: bool, root: Node) {
    forall q :: q != [] && Accepts(w, dominated, root, q) ==> PassesAt(w, root, q)
  }

  ghost predicate NoneReadmitted(w: ProjectWalker, dominated: bool, root: Node) {
    forall q :: !Readmitted(w, dominated, root, q)
  }

  lemma AcceptedAreKept(w: ProjectWalker, dominated: bool, root: Node, q: Path)
    requires AcceptedPass(w, dominated, root) && q != [] && Accepts(w, dominated, root, q)
    ensures forall i :: 0 < i <= |q| ==> KeptAt(w, root, q[..i])
  {
    assert q[..|q|] == q;
    hide *;
    forall i | 0 < i <= |q| ensures KeptAt(w, root, q[..i]) {
      AcceptedAbove(w, dominated, root, q, i);
      AcceptedIsKept(w, dominated, root, q[..i]);
    }
  }

  lemma AcceptedIsKept(w: ProjectWalker, dominated: bool, root: Node, q: Path)
    requires AcceptedPass(w, dominated, root) && q != [] && Accepts(w, dominated, root, q)
    ensures KeptAt(w, root, q)
  {
    assert PassesAt(w, root, q);
    HiddenFirst(w, dominated, root, q);
    hide PassesAt;
    hide KeptAt;
    hide AcceptedPass;
    hide Lookup;
  }

  /** A yielded entry that is not accepted lies at or below one that was readmitted. */
  lemma YieldedAreAccepted(w: ProjectWalker, dominated: bool, root: Node, q: Path)
    requires WellFormed(root) && NoneReadmitted(w, dominated, root) && q != [] && q in Iter(w, dominated, root)
    ensures Accepts(w, dominated, root, q)
  {
    WalkIsWhatIsAccepted(w, dominated, root, q);
    AcceptedIffShown(w, dominated, root, q);
    hide Iter;
    if i :| 0 < i <= |q| && IsHidden(w, q[..i]) {
      var j := FirstHidden(w, q, i);
      ReadmittedAt(w, dominated, root, q, j);
    }
  }

  lemma ReadmittedAt(w: ProjectWalker, dominated: bool, root: Node, q: Path, j: nat)
    requires 0 < j <= |q| && IsHidden(w, q[..j]) && KeptAt(w, root, q[..j])
    requires Accepts(Showing(w), dominated, root, q)
    requires forall k :: 0 < k < j ==> !IsHidden(w, q[..k])
    ensures Readmitted(w, dominated, root, q[..j])
  {
    assert q[..|q|] == q;
    ShownAbove(w, dominated, root, q, j);
    hide EligibleAt;
    hide YieldableAt;
    hide KeptAt;
    hide IsHidden;
    forall k | 0 < k < j ensures EligibleAt(w, dominated, root, q[..j][..k]) {
      assert q[..j][..k] == q[..k];
      HiddenFirst(w, dominated, root, q[..k]);
    }
  }

  lemma ShownAbove(w: ProjectWalker, dominated: bool, root: Node, q: Path, j: nat)
    requires Accepts(Showing(w), dominated, root, q) && 0 < j <= |q|
    ensures YieldableAt(Showing(w), dominated, root, q[..j]) && WithinDepth(w, q[..j])
    ensures forall k :: 0 < k < j ==> EligibleAt(Showing(w), dominated, root, q[..k])
  {
    ShownParts(w, dominated, root, q, j);
    hide *;
    if j < |q| {
      EligibleIsYieldable(Showing(w), dominated, root, q[..j]);
    } else {
      assert q[..j] == q;
    }
  }

  lemma ShownParts(w: ProjectWalker, dominated: bool, root: Node, q: Path, j: nat)
    requires Accepts(Showing(w), dominated, root, q) && 0 < j <= |q|
    ensures YieldableAt(Showing(w), dominated, root, q) && WithinDepth(w, q[..j])
    ensures forall k :: 0 < k < |q| ==> EligibleAt(Showing(w), dominated, root, q[..k])
  {
    hide EligibleAt;
    hide YieldableAt;
  }

  /** Where walk and classification agree, what is readmitted is not accepted but would be yielded. */
  lemma ReadmittedDisagrees(w: ProjectWalker, dominated: bool, root: Node, q: Path)
    requires WellFormed(root) && AcceptedPass(w, dominated, root) && Readmitted(w, dominated, root, q)
    ensures q in Iter(w, dominated, root) && !Accepts(w, dominated, root, q)
  {
    WalkIsWhatIsAccepted(w, dominated, root, q);
    AcceptedIffShown(w, dominated, root, q);
    assert q[..|q|] == q;
    hide Iter;
    hide EligibleAt;
    hide YieldableAt;
    hide KeptAt;
    hide IsHidden;
    hide Lookup;
    hide AcceptedPass;
    forall i | 0 < i < |q|
      ensures EligibleAt(Showing(w), dominated, root, q[..i]) && KeptAt(w, root, q[..i])
    {
      EligibleIsAccepted(w, dominated, root, q, i);
      AcceptedIsKept(w, dominated, root, q[..i]);
      HiddenFirst(w, dominated, root, q[..i]);
    }
  }

  /**
   They agree exactly when the library neither drops of its own accord what the classification accepts, nor keeps a name
   to be hidden against which nothing else speaks.
   */
  lemma AgreesIff(w: ProjectWalker, dominated: bool, root: Node)
    requires WellFormed(root)
    ensures Agrees(w, dominated, root) <==>
      && (forall q :: q != [] && Accepts(w, dominated, root, q) ==> PassesAt(w, root, q))
      && (forall q :: !Readmitted(w, dominated, root, q))
  {
    if Agrees(w, dominated, root) {
      AgreementPasses(w, dominated, root);
      hide *;
      forall q ensures !Readmitted(w, dominated, root, q) {
        if Readmitted(w, dominated, root, q) {
          ReadmittedDisagrees(w, dominated, root, q);
          AgreesAt(w, dominated, root, q);
        }
      }
    } else if AcceptedPass(w, dominated, root) && NoneReadmitted(w, dominated, root) {
      hide Readmitted;
      hide Accepts;
      hide Iter;
      forall q | q != [] ensures q in Iter(w, dominated, root) <==> Accepts(w, dominated, root, q) {
        if q in Iter(w, dominated, root) {
          YieldedAreAccepted(w, dominated, root, q);
        } else if Accepts(w, dominated, root, q) {
          AcceptedAreKept(w, dominated, root, q);
          AcceptedIffShown(w, dominated, root, q);
          WalkIsWhatIsAccepted(w, dominated, root, q);
        }
      }
    }
  }

  lemma AgreesAt(w: ProjectWalker, dominated: bool, root: Node, q: Path)
    requires Agrees(w, dominated, root)
    ensures q != [] ==> (q in Iter(w, dominated, root) <==> Accepts(w, dominated, root, q))
    ensures Readmitted(w, dominated, root, q) ==> q != []
  {
    hide Iter;
    hide Accepts;
  }

  lemma AgreementPasses(w: ProjectWalker, dominated: bool, root: Node)
    requires WellFormed(root) && Agrees(w, dominated, root)
    ensures AcceptedPass(w, dominated, root)
    ensures forall q :: q != [] && Accepts(w, dominated, root, q) ==> PassesAt(w, root, q)
  {
    hide Accepts;
    hide Iter;
    forall q | q != [] && Accepts(w, dominated, root, q) ensures PassesAt(w, root, q) {
      WalkIsWhatIsAccepted(w, dominated, root, q);
      assert q[..|q|] == q;
      assert KeptAt(w, root, q[..|q|]);
    }
  }

  /** The library hides every name to be hidden, and otherwise drops only what one of the ignore matchers excludes. */
  ghost predicate EngineFaithful(w: ProjectWalker) {
    forall path, isDir :: (IsHidden(w, path) ==> w.engine(path, isDir)) && !DropsAlone(w, path, isDir)
  }

  /** A library that is faithful in this sense agrees with the classification on every tree. */
  lemma WalkAgreesWithClassification(w: ProjectWalker, dominated: bool, root: Node)
    requires WellFormed(root) && EngineFaithful(w)
    ensures Agrees(w, dominated, root)
  {
    AgreesIff(w, dominated, root);
    hide ClassifyPath;
    hide Agrees;
  }

  lemma OneFile(name: string)
    ensures Lookup(Dir([Entry(name, File)]), [name]) == Some(File)
    ensures [name][..1] == [name] && WellFormed(Dir([Entry(name, File)]))
  {
    var children := [Entry(name, File)];
    assert Child(children, name) == Some(File);
    assert [name][1..] == [];
  }

  /**
   Without ignore matchers, an ignore file that the library still honours makes them disagree: a plain file is accepted
   and not yielded.
   */
  lemma HonouredIgnoreFileDisagrees(w: ProjectWalker, dominated: bool, name: string)
    requires w.deny.None? && w.engine([name], false)
    requires !IsHiddenName(name) && ExtensionAllowed(w, name) && WithinDepth(w, [name])
    ensures var root := Dir([Entry(name, File)]);
      Accepts(w, dominated, root, [name]) && [name] !in Iter(w, dominated, root) && !Agrees(w, dominated, root)
  {
    var root := Dir([Entry(name, File)]);
    OneFile(name);
    WalkIsWhatIsAccepted(w, dominated, root, [name]);
    assert !KeptAt(w, root, [name][..1]);
    assert Accepts(w, dominated, root, [name]);
    hide Accepts;
    hide Iter;
  }

  /** An ignore rule that readmits a dot file makes them disagree: the file is yielded, and classified as hidden. */
  lemma ReadmittedDotFileDisagrees(w: ProjectWalker, dominated: bool, name: string)
    requires w.excludeHidden && IsHiddenName(name) && !w.engine([name], false)
    requires w.deny.Some? ==> !IsIgnored(w.deny.value, [name], false)
    requires ExtensionAllowed(w, name) && WithinDepth(w, [name])
    ensures var root := Dir([Entry(name, File)]);
      && [name] in Iter(w, dominated, root) && ClassifyPath(w, [name], File) == Hidden
      && !Accepts(w, dominated, root, [name]) && !Agrees(w, dominated, root)
  {
    var root := Dir([Entry(name, File)]);
    OneFile(name);
    WalkIsWhatIsAccepted(w, dominated, root, [name]);
    assert forall i :: 0 < i <= 1 ==> KeptAt(w, root, [name][..i]);
    assert Accepts(Showing(w), dominated, root, [name]);
    assert !Accepts(w, dominated, root, [name]);
    hide Accepts;
    hide Iter;
  }

  lemma {:induction false} AboveIsDirectory(node: Node, q: Path, i: nat)
    requires i < |q| && Lookup(node, q).Some?
    ensures Lookup(node, q[..i]).Some? && Lookup(node, q[..i]).value.Dir?
    decreases |q|
  {
    if i > 0 {
      LookupStep(node, q, i);
      AboveIsDirectory(Child(node.children, q[0]).value, q[1..], i - 1);
    }
  }

  // ----- What the options can and cannot do -----

  /** What Git excludes is never yielded, nor anything below it, whatever the project's own ignore rules say. */
  lemma GitDenyIsFinal(w: ProjectWalker, preserve: bool, root: Node, q: Path, i: nat)
    requires WellFormed(root) && w.deny.Some? && q in Walk(w, preserve, root) && 0 < i <= |q|
    ensures Lookup(root, q[..i]).Some? && !w.deny.value.git(q[..i], Lookup(root, q[..i]).value.Dir?)
  {
    WalkIff(w, preserve, root, q);
    assert StepTaken(w, preserve, q[..i], Lookup(root, q[..i]));
  }

  /** The JavaScript or TypeScript hint only adds entries: those in or below a directory with a preserved name. */
  lemma HintOnlyAdds(w: ProjectWalker, root: Node, q: Path)
    requires WellFormed(root)
    ensures q in Walk(w, false, root) <==>
      && q in Walk(w, true, root)
      && (FiltersInstalled(w) ==> forall i :: 0 < i <= |q| ==>
            Lookup(root, q[..i]).Some? && (Lookup(root, q[..i]).value.Dir? ==> q[i - 1] !in JS_TS_PRESERVED_DIRS))
  {
    WalkIff(w, false, root, q);
    WalkIff(w, true, root, q);
    forall i | 0 < i <= |q|
      ensures StepTaken(w, false, q[..i], Lookup(root, q[..i])) <==>
        && StepTaken(w, true, q[..i], Lookup(root, q[..i]))
        && (FiltersInstalled(w) && Lookup(root, q[..i]).value.Dir? ==> q[i - 1] !in JS_TS_PRESERVED_DIRS)
    {
      assert FileName(w, q[..i]) == q[i - 1];
      PreservedAreExcluded(q[i - 1]);
    }
    hide StepTaken;
  }

  lemma PreservedAreExcluded(name: string)
    ensures name in JS_TS_PRESERVED_DIRS ==> name in DEFAULT_EXCLUDE_DIRS
  {
    var s := DEFAULT_EXCLUDE_DIRS;
    assert s[3] == "dist" && s[4] == "build" && s[5] == "out" && s[6] == "bin" && s[7] == "obj";
  }

  /** While ignore files are respected, switching the default exclusions off changes no walk at all. */
  lemma {:induction false} NoDefaultIgnoreChangesNothing(w: ProjectWalker, preserve: bool, path: Path, node: Node)
    requires w.deny.Some?
    ensures WalkFrom(w.(defaultIgnore := false), preserve, path, node)
         == WalkFrom(w.(defaultIgnore := true), preserve, path, node)
    decreases node, 1
  {
    if node.Dir? {
      NoDefaultIgnoreInChildren(w, preserve, path, node.children);
    }
  }

  lemma {:induction false} NoDefaultIgnoreInChildren(w: ProjectWalker, preserve: bool, path: Path, children: seq<Entry>)
    requires w.deny.Some?
    ensures WalkChildren(w.(defaultIgnore := false), preserve, path, children)
         == WalkChildren(w.(defaultIgnore := true), preserve, path, children)
    decreases children, 0
  {
    if children != [] {
      NoDefaultIgnoreChangesNothing(w, preserve, path + [children[0].name], children[0].node);
      NoDefaultIgnoreInChildren(w, preserve, path, children[1..]);
    }
  }

  lemma OneDirectory(w: ProjectWalker, preserve: bool, name: string)
    requires WithinDepth(w, [name])
    ensures [name] in Walk(w, preserve, Dir([Entry(name, Dir([]))])) <==> !Skips(w, preserve, [name], Dir([]))
  {
    var root, leaf: Node := Dir([Entry(name, Dir([]))]), Dir([]);
    assert Child(root.children, name) == Some(leaf);
    assert [name][..1] == [name] && [name][1..] == [];
    assert Lookup(root, [name]) == Lookup(leaf, []) == Some(leaf);
    WalkIff(w, preserve, root, [name]);
    hide Skips;
  }

  /**
   Switching the default exclusions off reaches a directory with an excluded name, which the library and the ignore
   files would let through, exactly when ignore files are not respected.
   */
  lemma NoDefaultIgnoreWorksIff(w: ProjectWalker, preserve: bool, name: string)
    requires NameExcluded(name, preserve) && WithinDepth(w, [name]) && !w.engine([name], true)
    requires w.deny.Some? ==> !IsIgnored(w.deny.value, [name], true)
    ensures var root := Dir([Entry(name, Dir([]))]);
      && [name] !in Walk(w.(defaultIgnore := true), preserve, root)
      && ([name] in Walk(w.(defaultIgnore := false), preserve, root) <==> w.deny.None?)
  {
    OneDirectory(w.(defaultIgnore := true), preserve, name);
    OneDirectory(w.(defaultIgnore := false), preserve, name);
    hide Walk;
    hide NameExcluded;
  }

  // ----- No entry twice -----

  ghost predicate Once(s: seq<Path>) {
    forall i, j :: 0 <= i < j < |s| ==> s[i] != s[j]
  }

  lemma OnceTogether(s: seq<Path>, t: seq<Path>)
    requires Once(s) && Once(t) && forall q :: q in s ==> q !in t
    ensures Once(s + t)
  {
    forall i, j | 0 <= i < j < |s + t| ensures (s + t)[i] != (s + t)[j] {
      if i < |s| <= j {
        assert (s + t)[i] in s && (s + t)[j] in t;
      }
    }
  }

  lemma {:induction false} WalkOnce(w: ProjectWalker, preserve: bool, path: Path, node: Node)
    requires WellFormed(node)
    ensures Once(WalkFrom(w, preserve, path, node))
    decreases node, 1
  {
    if node.Dir? {
      ChildrenOnce(w, preserve, path, node.children);
      forall q ensures q in WalkChildren(w, preserve, path, node.children) ==> q != path {
        ChildrenYield(w, preserve, path, node.children, q);
      }
      OnceTogether(if Keeps(w, path, node) then [path] else [], WalkChildren(w, preserve, path, node.children));
    }
  }

  lemma {:induction false} ChildrenOnce(w: ProjectWalker, preserve: bool, path: Path, children: seq<Entry>)
    requires WellFormed(Dir(children))
    ensures Once(WalkChildren(w, preserve, path, children))
    decreases children, 0
  {
    if children != [] {
      var first, below := children[0], path + [children[0].name];
      assert WellFormed(Dir(children[1..]));
      WalkOnce(w, preserve, below, first.node);
      ChildrenOnce(w, preserve, path, children[1..]);
      var s := if WithinDepth(w, below) && !Skips(w, preserve, below, first.node)
        then WalkFrom(w, preserve, below, first.node) else [];
      forall q ensures q in s ==> q !in WalkChildren(w, preserve, path, children[1..]) {
        WalkYields(w, preserve, below, first.node, q);
        ChildrenYield(w, preserve, path, children[1..], q);
        YieldsStep(w, preserve, path, children[1..], q);
        ChildrenHave(children[1..], first.name);
        assert below <= q ==> q[|path|] == first.name;
      }
      OnceTogether(s, WalkChildren(w, preserve, path, children[1..]));
    }
  }

  // ----- JavaScript and TypeScript dominance -----

  const CAP: nat := 256

  predicate CountsAsJsTs(extension: string) {
    extension in ["ts", "tsx", "js", "jsx", "mjs", "cjs"]
  }

  predicate CountsAsOther(extension: string) {
    extension in [
      "py", "rs", "go", "java", "c", "cc", "cpp", "cxx", "h", "hpp", "kt", "swift", "rb", "php", "scala", "lua", "luau",
      "ex", "exs", "ml", "mli", "cs"]
  }

  /** The files that count, in the order walked. */
  function Recognised(extensions: seq<string>): seq<string> {
    if extensions == [] then []
    else
      var last := extensions[|extensions| - 1];
      Recognised(extensions[..|extensions| - 1]) + if CountsAsJsTs(last) || CountsAsOther(last) then [last] else []
  }

  function JsTsAmong(extensions: seq<string>): (n: nat)
    ensures n <= |extensions|
  {
    if extensions == [] then 0
    else
      JsTsAmong(extensions[..|extensions| - 1]) + if CountsAsJsTs(extensions[|extensions| - 1]) then 1 else 0
  }

  lemma {:induction false} RecognisedGrows(extensions: seq<string>, i: nat)
    requires i <= |extensions|
    ensures Recognised(extensions[..i]) <= Recognised(extensions)
  {
    if i < |extensions| {
      RecognisedGrows(extensions[..|extensions| - 1], i);
      assert extensions[..|extensions| - 1][..i] == extensions[..i];
    } else {
      assert extensions[..i] == extensions;
    }
  }

  /** A strict majority of the first 256 files that count. */
  method RootIsJsTsDominated(isDir: bool, extensions: seq<string>) returns (dominated: bool)
    ensures var counted := Recognised(extensions);
      var sample := if |counted| <= 256 then counted else counted[..256];
      dominated <==> isDir && 2 * JsTsAmong(sample) > |sample|
  {
    if !isDir {
      return false;
    }
    var jsTs, other, inspected, i := 0, 0, 0, 0;
    while i < |extensions|
      invariant 0 <= i <= |extensions|
      invariant jsTs == JsTsAmong(Recognised(extensions[..i])) && jsTs + other == inspected
      invariant inspected == |Recognised(extensions[..i])| <= CAP
      invariant other >= 0
    {
      if inspected >= CAP {
        break;
      }
      var extension := extensions[i];
      OneMoreCounted(extensions, i);
      if CountsAsJsTs(extension) {
        jsTs, inspected := jsTs + 1, inspected + 1;
      } else if CountsAsOther(extension) {
        other, inspected := other + 1, inspected + 1;
      }
      i := i + 1;
    }
    RecognisedGrows(extensions, i);
    assert extensions[..|extensions|] == extensions;
    ghost var counted := Recognised(extensions);
    assert inspected == CAP ==> counted[..CAP] == Recognised(extensions[..i]);
    assert |counted| == CAP ==> counted[..CAP] == counted;
    assert i < |extensions| ==> inspected == CAP;
    dominated := jsTs > other && jsTs > 0;
  }

  lemma OneMoreCounted(extensions: seq<string>, i: nat)
    requires i < |extensions|
    ensures var before, after := Recognised(extensions[..i]), Recognised(extensions[..i + 1]);
      var counts := CountsAsJsTs(extensions[i]) || CountsAsOther(extensions[i]);
      && |after| == |before| + (if counts then 1 else 0)
      && JsTsAmong(after) == JsTsAmong(before) + (if CountsAsJsTs(extensions[i]) then 1 else 0)
  {
    assert extensions[..i + 1][..i] == extensions[..i];
    var before, after := Recognised(extensions[..i]), Recognised(extensions[..i + 1]);
    var counts := CountsAsJsTs(extensions[i]) || CountsAsOther(extensions[i]);
    hide CountsAsOther;
    assert after == if counts then before + [extensions[i]] else before;
    assert counts ==> after[..|after| - 1] == before;
  }
}
