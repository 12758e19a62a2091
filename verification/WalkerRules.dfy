/** The rules of the walk one by one, on names and matchers themselves: what each verdict means, and what is yielded. */
module WalkerRules {
  import opened Options
  import opened Languages
  import opened Walker

  /** The name consists of a stem, a dot and these last characters. */
  ghost predicate EndsIn(name: string, extension: string) {
    '.' !in extension && exists stem: string :: stem != [] && name == stem + ("." + extension)
  }

  lemma ExtensionIs(name: string, e: string)
    ensures Extension(name) == Some(e) <==> EndsIn(name, e)
  {
    if Extension(name) == Some(e) {
      ExtensionEnds(name, e);
    }
    if EndsIn(name, e) {
      EndIsExtension(name, e);
    }
    hide *;
  }

  lemma ExtensionEnds(name: string, e: string)
    requires Extension(name) == Some(e)
    ensures EndsIn(name, e)
  {
    hide LastDot;
    var dot := LastDot(name);
    assert forall j :: 0 <= j < |e| ==> e[j] == name[dot + 1 + j];
    assert name == name[..dot] + ("." + e);
  }

  lemma EndIsExtension(name: string, e: string)
    requires EndsIn(name, e)
    ensures Extension(name) == Some(e)
  {
    hide LastDot;
    var stem: string :| stem != [] && name == stem + ("." + e);
    DotBefore(stem, e);
  }

  lemma DotBefore(stem: string, e: string)
    requires '.' !in e
    ensures LastDot(stem + ("." + e)) == |stem| && (stem + ("." + e))[|stem| + 1..] == e
  {
    hide *;
    var tail := "." + e;
    assert tail[0] == '.' && tail[1..] == e;
    NoDotAfter(tail);
    Behind(stem, tail);
    LastDotIs(stem + tail, |stem|);
  }

  lemma NoDotAfter(tail: string)
    requires tail != [] && '.' !in tail[1..]
    ensures forall k :: 0 < k < |tail| ==> tail[k] != '.'
  {
    forall k | 0 < k < |tail| ensures tail[k] != '.' {
      assert tail[k] == tail[1..][k - 1];
    }
  }

  lemma Behind(stem: string, tail: string)
    requires tail != [] && forall k :: 0 < k < |tail| ==> tail[k] != '.'
    ensures |stem + tail| > |stem| && (stem + tail)[|stem|] == tail[0] && (stem + tail)[|stem| + 1..] == tail[1..]
    ensures forall j :: |stem| < j < |stem + tail| ==> (stem + tail)[j] != '.'
  {
  }

  lemma LastDotIs(name: string, i: nat)
    requires i < |name| && name[i] == '.' && forall j :: i < j < |name| ==> name[j] != '.'
    ensures LastDot(name) == i
  {
    hide *;
  }

  /** A dot name, the two special ones aside. */
  predicate IsDotName(name: string) {
    name != [] && name[0] == '.' && name != "." && name != ".."
  }

  function NameAt(w: ProjectWalker, path: Path): string {
    if path == [] then w.rootName else path[|path| - 1]
  }

  /** Git's rules or the project's own exclude it. */
  predicate Excluded(w: ProjectWalker, path: Path, node: Node) {
    w.deny.Some? && (w.deny.value.git(path, node.Dir?) || w.deny.value.tldr(path, node.Dir?))
  }

  /** Names of directories that are not authored: packages, build output, caches, coverage, version control. */
  predicate IsTooling(name: string) {
    match name
    case "node_modules" | "vendor" => true
    case "target" | "dist" | "build" | "out" | "bin" | "obj" | ".next" | ".nuxt" | "dox" => true
    case "__pycache__" | "venv" | "env" | ".pytest_cache" | ".tox" | ".mypy_cache" | ".ruff_cache" | ".gradle" => true
    case "coverage" | ".coverage" | ".git" => true
    case _ => false
  }

  /** A directory of build output: by its name, which the JavaScript hint may allow, or by a generator's files in it. */
  predicate IsOutput(node: Node, name: string, preserve: bool) {
    node.Dir? &&
    (|| (IsTooling(name) && !(preserve && name in ["build", "dist", "out", "bin", "obj"]))
     || exists i :: 0 <= i < |node.children| && node.children[i].name in ["doxygen.css", "doxygen.svg"])
  }

  ghost predicate ListsExtension(w: ProjectWalker, name: string) {
    w.extensions.None? || exists e :: e in w.extensions.value && EndsIn(name, e)
  }

  lemma ListsIff(w: ProjectWalker, name: string)
    ensures ExtensionAllowed(w, name) <==> ListsExtension(w, name)
  {
    if w.extensions.Some? {
      forall e ensures Extension(name) == Some(e) <==> EndsIn(name, e) {
        ExtensionIs(name, e);
      }
    }
    hide EndsIn;
    hide Extension;
  }

  /** The filters leave an entry alone. */
  ghost predicate Unfiltered(w: ProjectWalker, path: Path, node: Node, preserve: bool) {
    !Excluded(w, path, node) && (w.defaultIgnore || w.deny.Some? ==> !IsOutput(node, NameAt(w, path), preserve))
  }

  lemma SentinelIs(node: Node)
    ensures HasSentinel(node) <==>
      node.Dir? && exists i :: 0 <= i < |node.children| && node.children[i].name in ["doxygen.css", "doxygen.svg"]
  {
  }

  lemma ToolingIs(name: string)
    ensures name in DEFAULT_EXCLUDE_DIRS <==> IsTooling(name)
  {
    var s := DEFAULT_EXCLUDE_DIRS;
    assert s[0] == "node_modules" && s[1] == "vendor" && s[2] == "target" && s[3] == "dist" && s[4] == "build";
    assert s[5] == "out" && s[6] == "bin" && s[7] == "obj" && s[8] == ".next" && s[9] == ".nuxt" && s[10] == "dox";
    assert s[11] == "__pycache__" && s[12] == "venv" && s[13] == "env" && s[14] == ".pytest_cache" && s[15] == ".tox";
    assert s[16] == ".mypy_cache" && s[17] == ".ruff_cache" && s[18] == "coverage" && s[19] == ".coverage";
    assert s[20] == ".gradle" && s[21] == ".git";
  }

  lemma NameExcludedIs(name: string, preserve: bool)
    ensures NameExcluded(name, preserve) <==>
      IsTooling(name) && !(preserve && name in ["build", "dist", "out", "bin", "obj"])
  {
    ToolingIs(name);
    hide IsTooling;
  }

  /** What the filters say of an entry. */
  lemma ExplicitIs(w: ProjectWalker, path: Path, node: Node, preserve: bool)
    ensures FileName(w, path) == NameAt(w, path) && (IsOutput(node, NameAt(w, path), preserve) ==> node.Dir?)
    ensures ClassifyExplicit(path, NameAt(w, path), node, w.deny, preserve) ==
      if Excluded(w, path, node) then Some(Ignored)
      else if IsOutput(node, NameAt(w, path), preserve) then Some(Generated)
      else None
  {
    SentinelIs(node);
    NameExcludedIs(NameAt(w, path), preserve);
    hide HasSentinel;
    hide NameExcluded;
  }

  lemma FilteredIff(w: ProjectWalker, path: Path, node: Node, preserve: bool)
    ensures Skips(w, preserve, path, node) <==> w.engine(path, node.Dir?) || !Unfiltered(w, path, node, preserve)
  {
    ExplicitIs(w, path, node, preserve);
    hide ClassifyExplicit;
    hide IsOutput;
    hide FileName;
    hide NameAt;
  }

  /** What each verdict on a single path means. */
  lemma VerdictIs(w: ProjectWalker, path: Path, node: Node)
    ensures var verdict, name := ClassifyPath(w, path, node), NameAt(w, path);
      var hidden := w.excludeHidden && IsDotName(name);
      var installed := w.defaultIgnore || w.deny.Some?;
      var output := IsOutput(node, name, w.langHint in {Some(JavaScript), Some(TypeScript)});
      && (verdict == Hidden <==> hidden)
      && (verdict == Ignored <==> !hidden && Excluded(w, path, node))
      && (verdict == Generated <==> !hidden && !Excluded(w, path, node) && installed && output)
      && (verdict == Unsupported <==>
            !hidden && !Excluded(w, path, node) && !node.Dir? && !ListsExtension(w, name))
  {
    ListsIff(w, NameAt(w, path));
    ExplicitIs(w, path, node, IsJsTs(w.langHint));
    hide ListsExtension;
    hide ExtensionAllowed;
    hide ClassifyExplicit;
    hide IsOutput;
    hide FileName;
    hide NameAt;
  }

  /**
   An entry is yielded exactly when it is found, not too deep, with a listed extension if it is a file, and neither the
   library nor a filter drops it or a directory above it.
   */
  lemma YieldedIff(w: ProjectWalker, preserve: bool, root: Node, q: Path)
    requires WellFormed(root)
    ensures q in Walk(w, preserve, root) <==>
      && Lookup(root, q).Some?
      && (Lookup(root, q).value.File? ==> ListsExtension(w, NameAt(w, q)))
      && (q != [] && w.maxDepth.Some? ==> |q| <= w.maxDepth.value)
      && forall i :: 0 < i <= |q| ==>
           && Lookup(root, q[..i]).Some?
           && !w.engine(q[..i], Lookup(root, q[..i]).value.Dir?)
           && Unfiltered(w, q[..i], Lookup(root, q[..i]).value, preserve)
  {
    WalkIff(w, preserve, root, q);
    ListsIff(w, NameAt(w, q));
    assert q[..|q|] == q;
    forall i | 0 < i <= |q|
      ensures StepTaken(w, preserve, q[..i], Lookup(root, q[..i])) <==>
        && Lookup(root, q[..i]).Some? && (w.maxDepth.Some? ==> i <= w.maxDepth.value)
        && !w.engine(q[..i], Lookup(root, q[..i]).value.Dir?)
        && Unfiltered(w, q[..i], Lookup(root, q[..i]).value, preserve)
    {
      if Lookup(root, q[..i]).Some? {
        FilteredIff(w, q[..i], Lookup(root, q[..i]).value, preserve);
      }
      hide Unfiltered;
      hide Skips;
    }
    hide StepTaken;
    hide Unfiltered;
    hide Walk;
    hide ListsExtension;
  }

  /** What the project's own rules exclude is never yielded, nor anything below it, whatever Git says. */
  lemma TldrDenyIsFinal(w: ProjectWalker, preserve: bool, root: Node, q: Path, i: nat)
    requires WellFormed(root) && w.deny.Some? && q in Walk(w, preserve, root) && 0 < i <= |q|
    ensures Lookup(root, q[..i]).Some? && !w.deny.value.tldr(q[..i], Lookup(root, q[..i]).value.Dir?)
  {
    YieldedIff(w, preserve, root, q);
    assert Unfiltered(w, q[..i], Lookup(root, q[..i]).value, preserve);
    hide Walk;
  }
}
