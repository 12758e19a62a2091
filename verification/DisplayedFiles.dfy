/** The displayed files of a report and the reader that re-attaches the stripped prefix. */
module DisplayedFiles {
  import opened Paths

  predicate BeginAlike(ps: seq<Path>) {
    forall i :: 0 <= i < |ps| ==> ps[i] != [] && ps[0] != [] && ps[i][0] == ps[0][0]
  }

  function ReadCells(cells: seq<string>): (ps: seq<Path>)
    ensures |ps| == |cells| && forall i :: 0 <= i < |cells| ==> ps[i] == Normalized(cells[i])
  {
    if cells == [] then [] else [Normalized(cells[0])] + ReadCells(cells[1..])
  }

  /** Several cells that all begin with one component: one of the files must be the prefix itself. */
  predicate Alike(cells: seq<string>) {
    |cells| >= 2 && BeginAlike(ReadCells(cells))
  }

  /**
   A cell holds a whole path when nothing was stripped, when it is absolute, or when it shows the prefix and some file
   must be the prefix. To every other cell the prefix is re-attached.
   */
  function DecodeFile(prefix: string, alike: bool, cell: string): Path {
    if prefix == "" || (cell != "" && cell[0] == '/') || (alike && cell == prefix) then Normalized(cell)
    else Normalized(Attach(prefix, cell))
  }

  function CellsUnder(paths: seq<Path>, prefix: Path): (cells: seq<string>)
    ensures |cells| == |paths| && forall i :: 0 <= i < |paths| ==> cells[i] == StripPrefixDisplay(paths[i], prefix)
  {
    if paths == [] then [] else [StripPrefixDisplay(paths[0], prefix)] + CellsUnder(paths[1..], prefix)
  }

  function ShownCells(paths: seq<Path>): seq<string> {
    CellsUnder(paths, CommonPathPrefix(paths))
  }

  function Decoded(paths: seq<Path>, p: Path): Path {
    var prefix := CommonPathPrefix(paths);
    DecodeFile(Render(prefix), Alike(ShownCells(paths)), StripPrefixDisplay(p, prefix))
  }

  /** A relative prefix is stripped from several files. */
  predicate IsStripped(paths: seq<Path>) {
    |paths| >= 2 && CommonPathPrefix(paths) != [] && CommonPathPrefix(paths)[0] != RootDir
  }

  /** The file is the prefix, or the prefix below itself; both are shown alike. */
  predicate ShowsPrefix(paths: seq<Path>, i: nat)
    requires i < |paths|
  {
    var prefix := CommonPathPrefix(paths);
    paths[i] == prefix || paths[i] == prefix + prefix
  }

  /** The prefix is one of the files, and nothing or something else tells so. */
  predicate IsMisread(paths: seq<Path>) {
    var prefix := CommonPathPrefix(paths);
    IsStripped(paths) && prefix in paths && (!Alike(ShownCells(paths)) || prefix + prefix in paths)
  }

  /** A cell shows the prefix, and it is not the only one that must. */
  predicate IsAmbiguous(paths: seq<Path>) {
    && IsStripped(paths)
    && exists i :: 0 <= i < |paths| && ShowsPrefix(paths, i) && MayDiffer(paths, i)
  }

  predicate MayDiffer(paths: seq<Path>, i: nat) {
    !Alike(ShownCells(paths)) || exists j :: 0 <= j < |paths| && j != i && ShowsPrefix(paths, j)
  }

  ghost predicate AllDecoded(paths: seq<Path>) {
    forall p :: p in paths ==> Decoded(paths, p) == p
  }

  ghost predicate AllPlain(paths: seq<Path>) {
    forall p :: p in paths ==> Plain(p)
  }

  lemma ParentIsPlain(p: Path)
    requires Plain(p) && Parent(p) != []
    ensures Plain(Parent(p)) && IsStep(p[|p| - 1]) && p == Parent(p) + [p[|p| - 1]]
  {
  }

  lemma StrippedReads(prefix: Path, p: Path)
    requires Plain(p) && prefix != [] && prefix <= p && prefix != p
    ensures var cell := StripPrefixDisplay(p, prefix);
      cell != "" && cell[0] != '/' && Normalized(Attach(Render(prefix), cell)) == p
  {
    var rest := p[|prefix|..];
    assert p == prefix + rest;
    PlainPieces(p, |prefix|);
    assert prefix == p[..|prefix|];
    RenderSteps(rest);
    RenderAttach(prefix, rest);
    RenderIsReadable(p);
  }

  lemma SingleDecodes(p: Path)
    requires Plain(p)
    ensures Decoded([p], p) == p
  {
    var prefix := Parent(p);
    RenderIsReadable(p);
    if prefix != [] {
      ParentIsPlain(p);
      RenderIsReadable(prefix);
      StrippedReads(prefix, p);
    } else {
      RenderSnoc([], RootDir);
    }
  }

  /** With several paths and a prefix, what the cells show. */
  lemma ShownUnderPrefix(paths: seq<Path>, p: Path)
    requires |paths| >= 2 && AllPlain(paths) && p in paths
    ensures var prefix := CommonPathPrefix(paths);
      && prefix <= p && Plain(prefix) && (Render(prefix) == "" <==> prefix == [])
      && (prefix != [] ==> (Render(prefix)[0] == '/' <==> prefix[0] == RootDir))
      && Normalized(Render(prefix)) == prefix
      && (prefix == p ==> StripPrefixDisplay(p, prefix) == Render(prefix))
  {
    var prefix := CommonPathPrefix(paths);
    CommonPrefixIsLongest(paths);
    assert Shared(prefix, paths);
    assert prefix == p[..|prefix|];
    PlainPieces(p, |prefix|);
    RenderIsReadable(prefix);
  }

  /** What is left of a file under a relative prefix: of the prefix itself, all of it. */
  function Rest(p: Path, prefix: Path): Path
    requires prefix <= p
  {
    if p == prefix then prefix else p[|prefix|..]
  }

  /** Under a relative prefix every cell reads as what is left of its file. */
  lemma CellReads(paths: seq<Path>, i: nat)
    requires IsStripped(paths) && AllPlain(paths) && i < |paths|
    ensures var prefix, cell := CommonPathPrefix(paths), ShownCells(paths)[i];
      && prefix <= paths[i] && Plain(prefix)
      && cell != "" && cell[0] != '/' && Normalized(cell) == Rest(paths[i], prefix) != []
      && (cell == Render(prefix) <==> ShowsPrefix(paths, i))
      && Normalized(Attach(Render(prefix), cell)) == prefix + Rest(paths[i], prefix)
      && Render(prefix) != "" && Normalized(Render(prefix)) == prefix
  {
    var prefix, p := CommonPathPrefix(paths), paths[i];
    assert p in paths;
    ShownUnderPrefix(paths, p);
    var rest := Rest(p, prefix);
    PlainPieces(p, |prefix|);
    PlainPieces(prefix, |prefix|);
    assert prefix == p[..|prefix|] && Steps(prefix);
    assert p != prefix ==> p == prefix + rest;
    assert Steps(rest) && rest != [];
    RenderSteps(rest);
    RelativeIsReadable(rest);
    assert ShownCells(paths)[i] == Render(rest);
    RenderAttach(prefix, rest);
    assert Plain(prefix + rest);
    RenderIsReadable(prefix + rest);
    if Render(rest) == Render(prefix) {
      RenderInjective(rest, prefix);
    }
  }

  /** The component all cells begin with, after the prefix. */
  lemma StartsAlike(paths: seq<Path>, i: nat)
    requires IsStripped(paths) && AllPlain(paths) && Alike(ShownCells(paths)) && i < |paths|
    ensures var prefix := CommonPathPrefix(paths);
      && prefix <= paths[0] && Rest(paths[0], prefix) != []
      && (paths[i] != prefix ==> prefix + [Rest(paths[0], prefix)[0]] <= paths[i])
  {
    var prefix, cells := CommonPathPrefix(paths), ShownCells(paths);
    CellReads(paths, 0);
    CellReads(paths, i);
    var first, rest := Rest(paths[0], prefix), Rest(paths[i], prefix);
    assert ReadCells(cells)[i] == rest && ReadCells(cells)[0] == first;
    assert rest[0] == first[0];
    hide Alike;
    hide ShownCells;
    hide CommonPathPrefix;
    hide IsStripped;
    OneComponentMore(prefix, paths[i], first[0]);
  }

  lemma OneComponentMore(prefix: Path, p: Path, c: Component)
    requires prefix <= p && (p != prefix ==> Rest(p, prefix)[0] == c)
    ensures p != prefix ==> prefix + [c] <= p
  {
    assert p != prefix ==> p == prefix + Rest(p, prefix);
  }

  /** If all cells begin alike, one of the files is the prefix: else the prefix would be longer. */
  lemma AlikeMeansPrefix(paths: seq<Path>)
    requires IsStripped(paths) && AllPlain(paths) && Alike(ShownCells(paths))
    ensures CommonPathPrefix(paths) in paths
  {
    var prefix := CommonPathPrefix(paths);
    StartsAlike(paths, 0);
    var longer := prefix + [Rest(paths[0], prefix)[0]];
    forall q | q in paths ensures q != prefix ==> longer <= q {
      var i :| 0 <= i < |paths| && paths[i] == q;
      StartsAlike(paths, i);
    }
    CommonPrefixIsLongest(paths);
    hide CommonPathPrefix;
    hide Alike;
    assert Shared(longer, paths) ==> longer <= prefix;
  }

  /** How the reader takes a cell under a relative prefix. */
  lemma DecodedUnderPrefix(paths: seq<Path>, i: nat)
    requires IsStripped(paths) && AllPlain(paths) && i < |paths|
    ensures var prefix := CommonPathPrefix(paths);
      Decoded(paths, paths[i]) == paths[i] <==>
        && (paths[i] == prefix ==> Alike(ShownCells(paths)))
        && (paths[i] == prefix + prefix ==> !Alike(ShownCells(paths)))
  {
    var prefix, cell := CommonPathPrefix(paths), ShownCells(paths)[i];
    CellReads(paths, i);
    assert cell == StripPrefixDisplay(paths[i], prefix);
    hide Normalized;
    hide StripPrefixDisplay;
    hide Alike;
    hide CommonPathPrefix;
    hide ShownCells;
    RestOf(paths[i], prefix);
  }

  lemma RestOf(p: Path, prefix: Path)
    requires prefix <= p && prefix != []
    ensures p != prefix ==> p == prefix + Rest(p, prefix)
    ensures prefix + prefix != prefix
    ensures p == prefix ==> prefix + Rest(p, prefix) == prefix + prefix
  {
    assert |prefix + prefix| > |prefix|;
  }

  /** Without a relative prefix every cell can be read. */
  lemma UnstrippedDecode(paths: seq<Path>, p: Path)
    requires |paths| >= 2 && AllPlain(paths) && p in paths && !IsStripped(paths)
    ensures Decoded(paths, p) == p
  {
    var prefix := CommonPathPrefix(paths);
    ShownUnderPrefix(paths, p);
    RenderIsReadable(p);
    if prefix != [] && prefix != p {
      StrippedReads(prefix, p);
    }
  }

  /** The files can be read back exactly unless the prefix is one of them and the cells do not tell so. */
  lemma FilesDecodeIff(paths: seq<Path>)
    requires AllPlain(paths)
    ensures AllDecoded(paths) <==> !IsMisread(paths)
  {
    if |paths| == 1 {
      assert paths == [paths[0]];
      SingleDecodes(paths[0]);
    } else if IsStripped(paths) {
      forall i | 0 <= i < |paths|
        ensures var prefix := CommonPathPrefix(paths);
          Decoded(paths, paths[i]) == paths[i] <==>
            && (paths[i] == prefix ==> Alike(ShownCells(paths)))
            && (paths[i] == prefix + prefix ==> !Alike(ShownCells(paths)))
      {
        DecodedUnderPrefix(paths, i);
      }
      if Alike(ShownCells(paths)) {
        AlikeMeansPrefix(paths);
      }
      hide Decoded;
      assert forall i :: 0 <= i < |paths| ==> paths[i] in paths;
    } else {
      forall p | p in paths ensures Decoded(paths, p) == p {
        UnstrippedDecode(paths, p);
      }
    }
  }

  /** In particular, no file below another is enough. */
  lemma AntichainsDecode(paths: seq<Path>)
    requires AllPlain(paths) && Antichain(paths)
    ensures AllDecoded(paths)
  {
    FilesDecodeIff(paths);
    hide AllDecoded;
    if IsMisread(paths) {
      var prefix := CommonPathPrefix(paths);
      forall i | 0 <= i < |paths| ensures paths[i] == prefix {
        assert paths[i] in paths;
        CellReads(paths, i);
      }
      AllThePrefix(paths);
    }
  }

  lemma AllThePrefix(paths: seq<Path>)
    requires AllPlain(paths) && IsStripped(paths)
    requires forall i :: 0 <= i < |paths| ==> paths[i] == CommonPathPrefix(paths)
    ensures !IsMisread(paths)
  {
    var prefix := CommonPathPrefix(paths);
    RestOf(prefix, prefix);
    forall i | 0 <= i < |paths| ensures Normalized(ShownCells(paths)[i]) == prefix {
      CellReads(paths, i);
    }
    hide CommonPathPrefix;
    hide Normalized;
    hide ShownCells;
  }

  // ----- When the cells determine the files -----

  /** Files that are shown as the same cells under the same prefix. */
  ghost predicate ShownAlike(paths: seq<Path>, paths': seq<Path>) {
    && |paths| == |paths'| && AllPlain(paths')
    && Render(CommonPathPrefix(paths)) == Render(CommonPathPrefix(paths'))
    && ShownCells(paths) == ShownCells(paths')
  }

  ghost predicate Determined(paths: seq<Path>) {
    forall paths' :: ShownAlike(paths, paths') ==> paths' == paths
  }

  /** A path that all files begin with is their prefix if it is one of them or they go on differently. */
  lemma PrefixIs(paths: seq<Path>, prefix: Path)
    requires |paths| >= 2 && prefix != [] && forall q :: q in paths ==> prefix <= q
    requires prefix in paths
      || exists i :: 0 <= i < |paths| && paths[i] in paths && paths[0] in paths
           && Rest(paths[i], prefix)[0] != Rest(paths[0], prefix)[0]
    ensures CommonPathPrefix(paths) == prefix
  {
    CommonPrefixIsLongest(paths);
    forall r | Shared(r, paths) ensures r <= prefix {
      if prefix !in paths && !(r <= prefix) {
        assert paths[0] in paths && r <= paths[0];
        forall i | 0 <= i < |paths| ensures paths[i] in paths && Rest(paths[i], prefix)[0] == r[|prefix|] {
          assert paths[i] in paths && r <= paths[i];
        }
      }
    }
    assert Shared(prefix, paths);
    SharedPrefixUnique(CommonPathPrefix(paths), prefix, paths);
  }

  /** The other file that is shown as the prefix. */
  function Other(p: Path, prefix: Path): Path {
    if p == prefix then prefix + prefix else prefix
  }

  lemma OtherIsShownAlike(paths: seq<Path>, i: nat)
    requires IsStripped(paths) && AllPlain(paths) && i < |paths| && ShowsPrefix(paths, i)
    ensures var prefix := CommonPathPrefix(paths);
      var p, other := paths[i], Other(paths[i], prefix);
      && prefix <= p && prefix <= other && other != p && Plain(other)
      && Rest(other, prefix) == Rest(p, prefix)
      && StripPrefixDisplay(other, prefix) == StripPrefixDisplay(p, prefix)
  {
    var prefix := CommonPathPrefix(paths);
    CellReads(paths, i);
    PlainPieces(prefix, |prefix|);
    assert prefix == prefix[..|prefix|];
    var twice := prefix + prefix;
    assert |twice| > |prefix| && twice[|prefix|..] == prefix && Plain(twice);
  }

  /** The components the cells begin with are those their files go on with. */
  lemma NotAlike(paths: seq<Path>) returns (k: nat)
    requires IsStripped(paths) && AllPlain(paths) && !Alike(ShownCells(paths))
    ensures var prefix := CommonPathPrefix(paths);
      && k < |paths| && prefix <= paths[0] && prefix <= paths[k]
      && Rest(paths[0], prefix) != [] && Rest(paths[k], prefix) != []
      && Rest(paths[k], prefix)[0] != Rest(paths[0], prefix)[0]
  {
    var ps := ReadCells(ShownCells(paths));
    CellReads(paths, 0);
    k :| 0 <= k < |ps| && !(ps[k] != [] && ps[0] != [] && ps[k][0] == ps[0][0]);
    CellReads(paths, k);
  }

  lemma PrefixAfterExchange(paths: seq<Path>, prefix: Path, i: nat, other: Path, k: nat)
    requires i < |paths| && k < |paths| && |paths| >= 2 && prefix != [] && prefix <= other
    requires forall j :: 0 <= j < |paths| ==> prefix <= paths[j]
    requires Rest(other, prefix) == Rest(paths[i], prefix)
    requires (k != i && paths[k] == prefix) || Rest(paths[k], prefix)[0] != Rest(paths[0], prefix)[0]
    ensures CommonPathPrefix(paths[i := other]) == prefix
  {
    var paths' := paths[i := other];
    assert paths'[k] in paths' && paths'[0] in paths';
    assert Rest(paths'[k], prefix) == Rest(paths[k], prefix) && Rest(paths'[0], prefix) == Rest(paths[0], prefix);
    assert k != i ==> paths'[k] == paths[k];
    hide CommonPathPrefix;
    hide Rest;
    PrefixIs(paths', prefix);
  }

  lemma ExchangeKeepsPrefix(paths: seq<Path>, i: nat)
    requires IsStripped(paths) && AllPlain(paths) && i < |paths| && ShowsPrefix(paths, i)
    requires !Alike(ShownCells(paths)) || exists k :: 0 <= k < |paths| && k != i && paths[k] == CommonPathPrefix(paths)
    ensures CommonPathPrefix(paths[i := Other(paths[i], CommonPathPrefix(paths))]) == CommonPathPrefix(paths)
  {
    var prefix := CommonPathPrefix(paths);
    var other := Other(paths[i], prefix);
    OtherIsShownAlike(paths, i);
    CommonPrefixIsLongest(paths);
    forall j | 0 <= j < |paths| ensures prefix <= paths[j] {
      assert Shared(prefix, paths) && paths[j] in paths;
    }
    if !Alike(ShownCells(paths)) {
      var k := NotAlike(paths);
      hide *;
      PrefixAfterExchange(paths, prefix, i, other, k);
    } else {
      var k :| 0 <= k < |paths| && k != i && paths[k] == prefix;
      hide *;
      PrefixAfterExchange(paths, prefix, i, other, k);
    }
  }

  lemma CellsAlike(paths: seq<Path>, paths': seq<Path>, prefix: Path)
    requires |paths| == |paths'|
    requires forall k :: 0 <= k < |paths| ==>
      StripPrefixDisplay(paths[k], prefix) == StripPrefixDisplay(paths'[k], prefix)
    ensures CellsUnder(paths, prefix) == CellsUnder(paths', prefix)
  {
  }

  /** One file shown as the prefix may be exchanged for the other if the prefix stays what it is. */
  lemma ExchangeShownAlike(paths: seq<Path>, i: nat)
    requires IsStripped(paths) && AllPlain(paths) && i < |paths| && ShowsPrefix(paths, i)
    requires !Alike(ShownCells(paths)) || exists k :: 0 <= k < |paths| && k != i && paths[k] == CommonPathPrefix(paths)
    ensures var paths' := paths[i := Other(paths[i], CommonPathPrefix(paths))];
      ShownAlike(paths, paths') && paths' != paths
  {
    var prefix := CommonPathPrefix(paths);
    var paths' := paths[i := Other(paths[i], prefix)];
    ExchangeKeepsPrefix(paths, i);
    OtherIsShownAlike(paths, i);
    var other := Other(paths[i], prefix);
    assert paths'[i] != paths[i];
    hide *;
    ExchangedIsShownAlike(paths, i, other, prefix);
  }

  lemma ExchangedIsShownAlike(paths: seq<Path>, i: nat, other: Path, prefix: Path)
    requires i < |paths| && AllPlain(paths) && Plain(other)
    requires CommonPathPrefix(paths) == prefix == CommonPathPrefix(paths[i := other])
    requires StripPrefixDisplay(other, prefix) == StripPrefixDisplay(paths[i], prefix)
    ensures ShownAlike(paths, paths[i := other])
  {
    hide CommonPathPrefix;
    hide StripPrefixDisplay;
    hide Plain;
    hide CellsUnder;
    hide Render;
    var paths' := paths[i := other];
    CellsAlike(paths, paths', prefix);
    forall q | q in paths' ensures Plain(q) {
      assert q == other || q in paths;
    }
  }

  /** Of ambiguous files one can be exchanged without showing. */
  lemma AmbiguousExchange(paths: seq<Path>) returns (i: nat, other: Path)
    requires AllPlain(paths) && IsAmbiguous(paths)
    ensures i < |paths| && Plain(other) && ShownAlike(paths, paths[i := other]) && paths[i := other] != paths
    ensures var prefix := CommonPathPrefix(paths);
      StripPrefixDisplay(other, prefix) == StripPrefixDisplay(paths[i], prefix)
  {
    i :| 0 <= i < |paths| && ShowsPrefix(paths, i) && MayDiffer(paths, i);
    if Alike(ShownCells(paths)) {
      AlikeMeansPrefix(paths);
      var k :| 0 <= k < |paths| && paths[k] == CommonPathPrefix(paths);
      var j :| 0 <= j < |paths| && j != i && ShowsPrefix(paths, j);
      i := if k == i then j else i;
    }
    other := Other(paths[i], CommonPathPrefix(paths));
    ExchangeShownAlike(paths, i);
    OtherIsShownAlike(paths, i);
  }

  lemma SamePrefix(paths: seq<Path>, paths': seq<Path>)
    requires AllPlain(paths) && ShownAlike(paths, paths') && |paths| >= 2
    ensures CommonPathPrefix(paths) == CommonPathPrefix(paths')
  {
    assert paths[0] in paths && paths'[0] in paths';
    ShownUnderPrefix(paths, paths[0]);
    ShownUnderPrefix(paths', paths'[0]);
  }

  /** Whether files are ambiguous is told by their cells. */
  lemma AmbiguousAlike(paths: seq<Path>, paths': seq<Path>)
    requires AllPlain(paths) && ShownAlike(paths, paths')
    ensures IsAmbiguous(paths) <==> IsAmbiguous(paths')
  {
    if |paths| >= 2 {
      SamePrefix(paths, paths');
      if IsStripped(paths) {
        forall i | 0 <= i < |paths| ensures ShowsPrefix(paths, i) <==> ShowsPrefix(paths', i) {
          CellReads(paths, i);
          CellReads(paths', i);
        }
      }
    }
    hide ShowsPrefix;
    hide Alike;
  }

  lemma MisreadIsAmbiguous(paths: seq<Path>)
    ensures IsMisread(paths) ==> IsAmbiguous(paths)
  {
    if IsMisread(paths) {
      var prefix := CommonPathPrefix(paths);
      var i :| 0 <= i < |paths| && paths[i] == prefix;
      assert ShowsPrefix(paths, i);
      if prefix + prefix in paths {
        var j :| 0 <= j < |paths| && paths[j] == prefix + prefix;
        assert |prefix + prefix| > |prefix|;
        assert ShowsPrefix(paths, j);
      }
      assert MayDiffer(paths, i);
    }
  }

  /** The cells and the prefix determine the files exactly when the files are not ambiguous. */
  lemma DeterminedIff(paths: seq<Path>)
    requires AllPlain(paths)
    ensures Determined(paths) <==> !IsAmbiguous(paths)
  {
    if IsAmbiguous(paths) {
      var i, other := AmbiguousExchange(paths);
      assert ShownAlike(paths, paths[i := other]);
    } else {
      forall paths' | ShownAlike(paths, paths') ensures paths' == paths {
        AmbiguousAlike(paths, paths');
        MisreadIsAmbiguous(paths);
        MisreadIsAmbiguous(paths');
        FilesDecodeIff(paths);
        FilesDecodeIff(paths');
        hide IsAmbiguous;
        hide IsMisread;
        forall i | 0 <= i < |paths| ensures paths[i] == paths'[i] {
          assert paths[i] in paths && paths'[i] in paths';
          assert ShownCells(paths)[i] == ShownCells(paths')[i];
        }
      }
    }
  }
}
