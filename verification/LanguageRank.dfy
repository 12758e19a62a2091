/** Which language a project is written in, from the names of its files and the opinion of its manifests. */
module LanguageRank {
  import opened Options
  import opened Ordering
  import opened Languages
  import opened Walker

  const NOISE_DIRS: seq<string> := ["docs", "doc", "documentation", "site-docs"]

  /** Files in documentation do not tell the language of a project. */
  predicate IsNoise(file: Path) {
    exists i :: 0 <= i < |file| && file[i] in NOISE_DIRS
  }

  function NameOfFile(file: Path): string {
    if file == [] then "" else file[|file| - 1]
  }

  predicate Tells(file: Path, l: Language) {
    !IsNoise(file) && FromName(NameOfFile(file)) == Some(l)
  }

  predicate HasExtension(file: Path, extensions: seq<string>) {
    Extension(NameOfFile(file)).Some? && Extension(NameOfFile(file)).value in extensions
  }

  /** How many files satisfy a test. */
  function Count(files: seq<Path>, test: Path -> bool): (n: nat)
    ensures n <= |files|
  {
    if files == [] then 0
    else Count(files[..|files| - 1], test) + if test(files[|files| - 1]) then 1 else 0
  }

  function Telling(l: Language): Path -> bool {
    (file: Path) => Tells(file, l)
  }

  function Having(extensions: seq<string>): Path -> bool {
    (file: Path) => HasExtension(file, extensions)
  }

  function CountOf(files: seq<Path>, l: Language): nat {
    Count(files, Telling(l))
  }

  type Counts = map<Language, nat>

  /** Exactly the languages with files, each with their number. */
  ghost predicate Tallies(counts: Counts, files: seq<Path>) {
    && (forall l :: l in counts <==> CountOf(files, l) > 0)
    && (forall l :: l in counts ==> counts[l] == CountOf(files, l))
  }

  method Tally(files: seq<Path>) returns (counts: Counts)
    ensures Tallies(counts, files)
  {
    counts := map[];
    hide FromName;
    hide IsNoise;
    hide Tallies;
    NoFilesYet(files);
    for i := 0 to |files|
      invariant Tallies(counts, files[..i])
    {
      assert files[..i + 1][..i] == files[..i];
      var file := files[i];
      var l := FromName(NameOfFile(file));
      ghost var before := counts;
      if !IsNoise(file) && l.Some? {
        counts := counts[l.value := if l.value in counts then counts[l.value] + 1 else 1];
      }
      OneMoreFile(files, i, before, counts);
    }
    assert files[..|files|] == files;
  }

  lemma NoFilesYet(files: seq<Path>)
    ensures Tallies(map[], files[..0])
  {
    hide Tells;
  }

  lemma OneMoreFile(files: seq<Path>, i: nat, before: Counts, counts: Counts)
    requires i < |files| && Tallies(before, files[..i])
    requires var l := FromName(NameOfFile(files[i]));
      counts == if IsNoise(files[i]) || l.None? then before
                else before[l.value := if l.value in before then before[l.value] + 1 else 1]
    ensures Tallies(counts, files[..i + 1])
  {
    var file, earlier, now := files[i], files[..i], files[..i + 1];
    hide FromName;
    hide IsNoise;
    forall l ensures CountOf(now, l) == CountOf(earlier, l) + if Tells(file, l) then 1 else 0 {
      CountGrows(files, i, Telling(l));
    }
    hide CountOf;
    TallyGrows(earlier, now, if IsNoise(file) then None else FromName(NameOfFile(file)), before, counts);
  }

  lemma CountGrows(files: seq<Path>, i: nat, test: Path -> bool)
    requires i < |files|
    ensures Count(files[..i + 1], test) == Count(files[..i], test) + if test(files[i]) then 1 else 0
  {
    assert files[..i + 1][..i] == files[..i];
  }

  lemma TallyGrows(earlier: seq<Path>, now: seq<Path>, found: Option<Language>, before: Counts, counts: Counts)
    requires Tallies(before, earlier)
    requires forall l :: CountOf(now, l) == CountOf(earlier, l) + if found == Some(l) then 1 else 0
    requires counts == if found.None? then before
                       else before[found.value := if found.value in before then before[found.value] + 1 else 1]
    ensures Tallies(counts, now)
  {
    hide CountOf;
  }

  // ----- C or C++, Swift or Rust -----

  const CPP_EXTENSIONS: seq<string> := ["cpp", "cc", "cxx", "hpp", "hh", "hxx"]

  function CppFiles(files: seq<Path>): nat {
    Count(files, Having(CPP_EXTENSIONS))
  }

  function FilesWith(files: seq<Path>, extension: string): nat {
    Count(files, Having([extension]))
  }

  /** Swift or Rust when it outnumbers C and C++ together, else C++ only when it outnumbers C. */
  predicate TieBreaks(files: seq<Path>, l: Language) {
    var c, cpp, swift, rust :=
      FilesWith(files, "c"), CppFiles(files), FilesWith(files, "swift"), FilesWith(files, "rs");
    && l in {Swift, Rust, Cpp, C}
    && (l == Swift <==> swift > c + cpp && swift >= rust)
    && (l == Rust <==> rust > c + cpp && rust > swift)
    && (l == Cpp <==> swift <= c + cpp && rust <= c + cpp && cpp > c)
  }

  method CVersusCpp(files: seq<Path>) returns (l: Language)
    ensures TieBreaks(files, l)
  {
    var cFamily, cppFamily, swift, rust := 0, 0, 0, 0;
    for i := 0 to |files|
      invariant cFamily == FilesWith(files[..i], "c") && cppFamily == CppFiles(files[..i])
      invariant swift == FilesWith(files[..i], "swift") && rust == FilesWith(files[..i], "rs")
    {
      assert files[..i + 1][..i] == files[..i];
      var extension := Extension(NameOfFile(files[i]));
      if extension.Some? {
        if extension.value in CPP_EXTENSIONS {
          cppFamily := cppFamily + 1;
        } else if extension.value == "c" {
          cFamily := cFamily + 1;
        } else if extension.value == "swift" {
          swift := swift + 1;
        } else if extension.value == "rs" {
          rust := rust + 1;
        }
      }
    }
    assert files[..|files|] == files;
    var total := cFamily + cppFamily;
    if swift > total && swift >= rust {
      return Swift;
    }
    if rust > total && rust > swift {
      return Rust;
    }
    l := if cppFamily > cFamily then Cpp else C;
  }

  // ----- Ranking -----

  datatype Ranked = Ranked(language: Language, count: nat)

  /** More files first; ties by name. */
  predicate Before(a: Ranked, b: Ranked) {
    a.count > b.count || (a.count == b.count && Less(NameOf(a.language), NameOf(b.language)))
  }

  function InsertRanked(s: seq<Ranked>, x: Ranked): seq<Ranked> {
    if s == [] then [x]
    else if Before(s[0], x) then [s[0]] + InsertRanked(s[1..], x)
    else [x] + s
  }

  function Rank(s: seq<Ranked>): seq<Ranked> {
    if s == [] then [] else InsertRanked(Rank(s[1..]), s[0])
  }

  ghost predicate OneEach(s: seq<Ranked>) {
    forall i, j :: 0 <= i < j < |s| ==> s[i].language != s[j].language
  }

  ghost predicate InRank(s: seq<Ranked>) {
    forall i, j :: 0 <= i < j < |s| ==> Before(s[i], s[j])
  }

  function Named(name: string): Language {
    match name
    case "Python" => Python
    case "TypeScript" => TypeScript
    case "JavaScript" => JavaScript
    case "Go" => Go
    case "Rust" => Rust
    case "Java" => Java
    case "C" => C
    case "Cpp" => Cpp
    case "Ruby" => Ruby
    case "Kotlin" => Kotlin
    case "Swift" => Swift
    case "CSharp" => CSharp
    case "Scala" => Scala
    case "Php" => Php
    case "Lua" => Lua
    case "Luau" => Luau
    case "Elixir" => Elixir
    case _ => Ocaml
  }

  lemma NamesDiffer(a: Language, b: Language)
    ensures a != b ==> Less(NameOf(a), NameOf(b)) || Less(NameOf(b), NameOf(a))
  {
    assert Named(NameOf(a)) == a && Named(NameOf(b)) == b;
    LessConnected(NameOf(a), NameOf(b));
  }

  lemma BeforeTotal(a: Ranked, b: Ranked)
    ensures a.language != b.language ==> Before(a, b) || Before(b, a)
    ensures !(Before(a, b) && Before(b, a))
  {
    NamesDiffer(a.language, b.language);
    if Less(NameOf(a.language), NameOf(b.language)) {
      LessAsymmetric(NameOf(a.language), NameOf(b.language));
    }
  }

  lemma BeforeTransitive(a: Ranked, b: Ranked, c: Ranked)
    requires Before(a, b) && Before(b, c)
    ensures Before(a, c)
  {
    if a.count == b.count == c.count {
      LessTransitive(NameOf(a.language), NameOf(b.language), NameOf(c.language));
    }
  }

  lemma {:induction false} InsertInRank(s: seq<Ranked>, x: Ranked)
    requires InRank(s) && forall e :: e in s ==> e.language != x.language
    ensures InRank(InsertRanked(s, x))
    ensures forall e :: e in InsertRanked(s, x) <==> e == x || e in s
  {
    hide Before;
    if s != [] {
      assert s == [s[0]] + s[1..];
      BeforeTotal(s[0], x);
      if Before(s[0], x) {
        InsertInRank(s[1..], x);
        var r := InsertRanked(s[1..], x);
        forall j | 0 <= j < |r| ensures Before(s[0], r[j]) {
          assert r[j] in r;
        }
      } else {
        assert s[0] in s;
        forall j | 0 <= j < |s| ensures Before(x, s[j]) {
          if j > 0 {
            BeforeTransitive(x, s[0], s[j]);
          }
        }
      }
    }
  }

  lemma {:induction false} RankIsSorted(s: seq<Ranked>)
    requires OneEach(s)
    ensures InRank(Rank(s))
    ensures forall e :: e in Rank(s) <==> e in s
  {
    if s != [] {
      RankIsSorted(s[1..]);
      assert s == [s[0]] + s[1..];
      InsertInRank(Rank(s[1..]), s[0]);
    }
  }

  /** First place, and the number of files of the second. */
  lemma FirstTwo(s: seq<Ranked>, first: Ranked)
    requires OneEach(s) && first in s
    requires forall e :: e in s && e != first ==> Before(first, e)
    ensures Rank(s) != [] && Rank(s)[0] == first
    ensures |Rank(s)| > 1 ==> Rank(s)[1] in s && Rank(s)[1] != first
    ensures forall e :: e in s && e != first ==> |Rank(s)| > 1 && e.count <= Rank(s)[1].count
  {
    RankIsSorted(s);
    var r := Rank(s);
    var i :| 0 <= i < |r| && r[i] == first;
    assert r[0] in s;
    BeforeTotal(r[0], first);
    if |r| > 1 {
      assert r[1] in r;
      BeforeTotal(r[0], r[1]);
    }
    forall e | e in s && e != first ensures |r| > 1 && e.count <= r[1].count {
      var j :| 0 <= j < |r| && r[j] == e;
    }
  }

  // ----- The answer -----

  predicate IsFamily(l: Language) {
    l == C || l == Cpp
  }

  /** Most files; ties by name. */
  ghost predicate IsTop(counts: Counts, top: Language) {
    top in counts && forall l :: l in counts && l != top ==> Before(Ranked(top, counts[top]), Ranked(l, counts[l]))
  }

  function Get(counts: Counts, l: Language): nat {
    if l in counts then counts[l] else 0
  }

  function DominantOf(top: Language, tie: Language): Language {
    if IsFamily(top) then tie else top
  }

  /** C and C++ count together when one of them is the answer. */
  function DominantCount(counts: Counts, top: Language, dominant: Language): nat {
    if IsFamily(dominant) then Get(counts, C) + Get(counts, Cpp) else Get(counts, top)
  }

  predicate IsRival(counts: Counts, top: Language, dominant: Language, l: Language) {
    l in counts && if IsFamily(dominant) then !IsFamily(l) else l != top
  }

  /** Some rival has at least four fifths of the dominant count. */
  predicate IsClose(counts: Counts, top: Language, dominant: Language) {
    exists l ::
      l in counts && IsRival(counts, top, dominant, l) && 5 * counts[l] >= 4 * DominantCount(counts, top, dominant)
  }

  /** The dominant language, unless the call is close and a manifest names a language that has files. */
  function Choose(counts: Counts, top: Language, tie: Language, manifest: Option<Language>): Language {
    var dominant := DominantOf(top, tie);
    if IsClose(counts, top, dominant) && manifest.Some? && manifest.value in counts then manifest.value else dominant
  }

  ghost predicate Untold(files: seq<Path>) {
    forall l :: CountOf(files, l) == 0
  }

  /** The files that decide: those of the second walk if the first tells nothing. */
  ghost function Deciding(walked: seq<Path>, retried: seq<Path>): seq<Path> {
    if Untold(walked) then retried else walked
  }

  ghost predicate IsTold(files: seq<Path>, walked: seq<Path>, manifest: Option<Language>, r: Option<Language>) {
    exists counts, top, tie ::
      && Tallies(counts, files) && IsTop(counts, top) && TieBreaks(walked, tie)
      && r == Some(Choose(counts, top, tie, manifest))
  }

  ghost predicate IsAnswer(walked: seq<Path>, retried: seq<Path>, manifest: Option<Language>, r: Option<Language>) {
    var files := Deciding(walked, retried);
    if Untold(files) then r == None else IsTold(files, walked, manifest, r)
  }

  ghost predicate Lists(s: seq<Ranked>, counts: Counts) {
    && OneEach(s)
    && (forall e :: e in s <==> e.language in counts && counts[e.language] == e.count)
  }

  /** The entries of a hash map, in whatever order it gives them. */
  method EntriesOf(counts: Counts) returns (s: seq<Ranked>)
    ensures Lists(s, counts)
  {
    s := [];
    var left := counts.Keys;
    while left != {}
      invariant left <= counts.Keys && Lists(s, counts - left)
      decreases left
    {
      var l :| l in left;
      var before := s;
      s := s + [Ranked(l, counts[l])];
      forall e ensures e in s <==> e in before || e == Ranked(l, counts[l]) {
      }
      left := left - {l};
    }
    assert counts - {} == counts;
  }

  lemma TopUnique(counts: Counts, a: Language, b: Language)
    requires IsTop(counts, a) && IsTop(counts, b)
    ensures a == b
  {
    BeforeTotal(Ranked(a, counts[a]), Ranked(b, counts[b]));
  }

  lemma FirstIsTop(s: seq<Ranked>, counts: Counts)
    requires Lists(s, counts) && s != []
    ensures Rank(s) != [] && IsTop(counts, Rank(s)[0].language) && Rank(s)[0].count == counts[Rank(s)[0].language]
  {
    RankIsSorted(s);
    assert s[0] in Rank(s);
    var r := Rank(s);
    assert r[0] in s;
    forall l | l in counts && l != r[0].language ensures Before(r[0], Ranked(l, counts[l])) {
      assert Ranked(l, counts[l]) in s;
      var j :| 0 <= j < |r| && r[j] == Ranked(l, counts[l]);
    }
  }

  /** The merged family cannot lose its first place. */
  lemma MergedIsFirst(counts: Counts, top: Language, l: Language)
    requires IsTop(counts, top) && IsFamily(top) && l in counts && !IsFamily(l)
    ensures counts[l] <= Get(counts, C) + Get(counts, Cpp)
  {
  }

  /** When nothing in a list exceeds `total`, adding an entry of that size leaves the list's largest in second place. */
  lemma MergedFirstTwo(others: seq<Ranked>, merged: Ranked)
    requires OneEach(others) && forall e :: e in others ==> e.language != merged.language && e.count <= merged.count
    ensures var r := Rank(others + [merged]);
      && |r| >= 1 && r[0].count == merged.count
      && (|r| > 1 ==> exists e :: e in others && e.count == r[1].count)
      && forall e :: e in others ==> |r| > 1 && e.count <= r[1].count
  {
    var s := others + [merged];
    RankIsSorted(s);
    assert merged in s && merged in Rank(s);
    var first := Rank(s)[0];
    assert first in s;
    forall e | e in s && e != first ensures Before(first, e) {
      var j :| 0 <= j < |Rank(s)| && Rank(s)[j] == e;
    }
    FirstTwo(s, first);
    assert forall e :: e in s <==> e in others || e == merged;
  }

  /** Whether the runner-up, with C and C++ taken together, has four fifths of the dominant count. */
  method ComesClose(counts: Counts, entries: seq<Ranked>, top: Language, dominant: Language) returns (close: bool)
    requires Lists(entries, counts) && IsTop(counts, top) && counts[top] > 0
    requires IsFamily(dominant) ==> IsFamily(top)
    ensures close <==> IsClose(counts, top, dominant)
  {
    var consolidated := Rank(entries);
    if dominant == C || dominant == Cpp {
      var others := EntriesOf(map l | l in counts && !IsFamily(l) :: counts[l]);
      var merged := Ranked(dominant, Get(counts, C) + Get(counts, Cpp));
      consolidated := Rank(others + [merged]);
      MergedSecond(counts, top, dominant, others);
    } else {
      RankedSecond(counts, top, dominant, entries);
    }
    hide IsClose;
    var dominantCount := consolidated[0].count;
    var runnerUp := if |consolidated| > 1 then consolidated[1].count else 0;
    close := 5 * runnerUp >= 4 * dominantCount;
  }

  method FromDirectory(walked: seq<Path>, retried: seq<Path>, manifest: Option<Language>) returns (r: Option<Language>)
    ensures IsAnswer(walked, retried, manifest, r)
  {
    hide CountOf;
    hide TieBreaks;
    var counts := Tally(walked);
    EmptyIffUntold(counts, walked);
    ghost var files := Deciding(walked, retried);
    if counts == map[] {
      counts := Tally(retried);
      EmptyIffUntold(counts, retried);
      if counts == map[] {
        return None;
      }
    }
    EmptyIffUntold(counts, files);
    hide Tallies;
    var entries := EntriesOf(counts);
    assert entries != [] by {
      var l :| l in counts;
      assert Ranked(l, counts[l]) in entries;
    }
    FirstIsTop(entries, counts);
    var ranked := Rank(entries);
    var top := ranked[0].language;
    var tie := CVersusCpp(walked);
    var dominant := if top == C || top == Cpp then tie else top;
    var close := ComesClose(counts, entries, top, dominant);
    hide IsClose;
    hide IsTop;
    r := Some(dominant);
    if close && manifest.Some? && manifest.value in counts && counts[manifest.value] > 0 {
      r := manifest;
    }
    Settles(files, walked, counts, top, tie, manifest);
  }

  lemma Settles(files: seq<Path>, walked: seq<Path>, counts: Counts, top: Language, tie: Language,
                manifest: Option<Language>)
    requires Tallies(counts, files) && IsTop(counts, top) && TieBreaks(walked, tie)
    ensures IsTold(files, walked, manifest, Some(Choose(counts, top, tie, manifest)))
  {
    hide Tallies;
    hide IsTop;
    hide TieBreaks;
    hide Choose;
  }

  lemma EmptyIffUntold(counts: Counts, files: seq<Path>)
    requires Tallies(counts, files)
    ensures counts == map[] <==> Untold(files)
    ensures forall l :: l in counts ==> counts[l] > 0
  {
    hide CountOf;
    if counts != map[] {
      assert counts.Keys != {};
      var l :| l in counts;
    }
  }

  /** First and second place decide whether the call is close. */
  ghost predicate Decides(counts: Counts, top: Language, dominant: Language, r: seq<Ranked>) {
    && r != []
    && r[0].count == DominantCount(counts, top, dominant)
    && (IsClose(counts, top, dominant) <==> 5 * (if |r| > 1 then r[1].count else 0) >= 4 * r[0].count)
  }

  lemma MergedSecond(counts: Counts, top: Language, dominant: Language, others: seq<Ranked>)
    requires IsTop(counts, top) && IsFamily(top) && IsFamily(dominant) && counts[top] > 0
    requires Lists(others, map l | l in counts && !IsFamily(l) :: counts[l])
    ensures Decides(counts, top, dominant, Rank(others + [Ranked(dominant, Get(counts, C) + Get(counts, Cpp))]))
  {
    var merged := Ranked(dominant, Get(counts, C) + Get(counts, Cpp));
    forall e | e in others ensures e.language != merged.language && e.count <= merged.count {
      MergedIsFirst(counts, top, e.language);
    }
    MergedFirstTwo(others, merged);
    forall l | IsRival(counts, top, dominant, l) ensures Ranked(l, counts[l]) in others {
    }
    assert forall e :: e in others ==> IsRival(counts, top, dominant, e.language) && e.count == counts[e.language];
  }

  lemma RankedSecond(counts: Counts, top: Language, dominant: Language, entries: seq<Ranked>)
    requires IsTop(counts, top) && !IsFamily(dominant) && counts[top] > 0
    requires Lists(entries, counts)
    ensures Decides(counts, top, dominant, Rank(entries))
  {
    var first := Ranked(top, counts[top]);
    assert first in entries;
    FirstTwo(entries, first);
    RivalsAreListed(counts, top, dominant, entries);
    hide Before;
    hide Rank;
    hide IsRival;
    hide IsTop;
    hide Lists;
  }

  lemma RivalsAreListed(counts: Counts, top: Language, dominant: Language, entries: seq<Ranked>)
    requires top in counts && !IsFamily(dominant) && Lists(entries, counts)
    ensures forall l :: IsRival(counts, top, dominant, l) ==> Ranked(l, counts[l]) in entries
    ensures forall e :: e in entries && e != Ranked(top, counts[top]) ==>
      IsRival(counts, top, dominant, e.language) && e.count == counts[e.language]
  {
  }

  lemma {:induction false} CountIsAdditive(a: seq<Path>, b: seq<Path>, test: Path -> bool)
    ensures Count(a + b, test) == Count(a, test) + Count(b, test)
  {
    if b == [] {
      assert a + b == a;
    } else {
      assert (a + b)[..|a + b| - 1] == a + b[..|b| - 1];
      CountIsAdditive(a, b[..|b| - 1], test);
    }
  }

  lemma Without(s: seq<Path>, i: nat, test: Path -> bool)
    requires i < |s|
    ensures var rest := s[..i] + s[i + 1..];
      && multiset(rest) == multiset(s) - multiset{s[i]} && |rest| == |s| - 1
      && Count(s, test) == Count(rest, test) + if test(s[i]) then 1 else 0
  {
    var file, before, after := s[i], s[..i], s[i + 1..];
    assert s == before + ([file] + after);
    CountIsAdditive(before, after, test);
    CountIsAdditive(before, [file] + after, test);
    CountIsAdditive([file], after, test);
    CountOne(file, test);
    hide Count;
  }

  lemma CountOne(file: Path, test: Path -> bool)
    ensures Count([file], test) == if test(file) then 1 else 0
  {
    assert [file][..0] == [];
  }

  /** Counting does not depend on the order files are walked in. */
  lemma {:induction false} CountIgnoresOrder(a: seq<Path>, b: seq<Path>, test: Path -> bool)
    requires multiset(a) == multiset(b)
    ensures Count(a, test) == Count(b, test)
    decreases |a|
  {
    hide *;
    if a == [] {
      SameSize(a, b);
    } else {
      assert a[0] in multiset(b);
      var i :| 0 <= i < |b| && b[i] == a[0];
      Without(a, 0, test);
      Without(b, i, test);
      CountIgnoresOrder(a[..0] + a[1..], b[..i] + b[i + 1..], test);
    }
  }

  lemma SameSize(a: seq<Path>, b: seq<Path>)
    requires multiset(a) == multiset(b)
    ensures |a| == |b|
    ensures a == [] ==> a == b
  {
    assert |multiset(a)| == |a| && |multiset(b)| == |b|;
  }

  /** The answer does not depend on the order of the walks or of any hash map. */
  lemma AnswerIgnoresOrder(walked: seq<Path>, walked': seq<Path>, retried: seq<Path>, retried': seq<Path>,
                           manifest: Option<Language>, r: Option<Language>, r': Option<Language>)
    requires multiset(walked) == multiset(walked') && multiset(retried) == multiset(retried')
    requires IsAnswer(walked, retried, manifest, r) && IsAnswer(walked', retried', manifest, r')
    ensures r == r'
  {
    forall l ensures CountOf(walked, l) == CountOf(walked', l) && CountOf(retried, l) == CountOf(retried', l) {
      CountIgnoresOrder(walked, walked', Telling(l));
      CountIgnoresOrder(retried, retried', Telling(l));
    }
    hide CountOf;
    hide IsTold;
    var files, files' := Deciding(walked, retried), Deciding(walked', retried');
    assert Untold(walked) <==> Untold(walked');
    assert forall l :: CountOf(files, l) == CountOf(files', l);
    assert Untold(files) <==> Untold(files');
    hide Deciding;
    if !Untold(files) {
      ToldAlike(files, files', walked, walked', manifest, r, r');
    }
  }

  lemma TallyUnique(counts: Counts, counts': Counts, files: seq<Path>, files': seq<Path>)
    requires forall l :: CountOf(files, l) == CountOf(files', l)
    requires Tallies(counts, files) && Tallies(counts', files')
    ensures counts == counts'
  {
    hide CountOf;
  }

  /** Whatever tally, top and tie-break are found, they give the one answer. */
  lemma ToldIs(files: seq<Path>, files': seq<Path>, walked: seq<Path>, walked': seq<Path>, manifest: Option<Language>,
               r: Option<Language>, counts: Counts, top: Language, tie: Language)
    requires forall l :: CountOf(files, l) == CountOf(files', l)
    requires multiset(walked) == multiset(walked')
    requires Tallies(counts, files) && IsTop(counts, top) && TieBreaks(walked, tie)
    requires IsTold(files', walked', manifest, r)
    ensures r == Some(Choose(counts, top, tie, manifest))
  {
    hide CountOf;
    hide Tallies;
    hide TieBreaks;
    hide Choose;
    hide IsTop;
    var counts', top', tie' :|
      Tallies(counts', files') && IsTop(counts', top') && TieBreaks(walked', tie')
      && r == Some(Choose(counts', top', tie', manifest));
    hide IsTold;
    TallyUnique(counts, counts', files, files');
    TopUnique(counts, top, top');
    TieUnique(walked, walked', tie, tie');
  }

  lemma ToldAlike(files: seq<Path>, files': seq<Path>, walked: seq<Path>, walked': seq<Path>,
                  manifest: Option<Language>, r: Option<Language>, r': Option<Language>)
    requires forall l :: CountOf(files, l) == CountOf(files', l)
    requires multiset(walked) == multiset(walked')
    requires IsTold(files, walked, manifest, r) && IsTold(files', walked', manifest, r')
    ensures r == r'
  {
    hide CountOf;
    hide Tallies;
    hide TieBreaks;
    hide Choose;
    hide IsTop;
    var counts, top, tie :|
      && Tallies(counts, files) && IsTop(counts, top) && TieBreaks(walked, tie)
      && r == Some(Choose(counts, top, tie, manifest));
    hide IsTold;
    ToldIs(files, files', walked, walked', manifest, r', counts, top, tie);
  }

  lemma TieUnique(walked: seq<Path>, walked': seq<Path>, tie: Language, tie': Language)
    requires multiset(walked) == multiset(walked')
    requires TieBreaks(walked, tie) && TieBreaks(walked', tie')
    ensures tie == tie'
  {
    CountIgnoresOrder(walked, walked', Having(CPP_EXTENSIONS));
    CountIgnoresOrder(walked, walked', Having(["c"]));
    CountIgnoresOrder(walked, walked', Having(["swift"]));
    CountIgnoresOrder(walked, walked', Having(["rs"]));
    hide HasExtension;
  }

  // ----- What a manifest can change, and when the answer has files -----

  /** The call is close on these files. */
  ghost predicate CloseCall(files: seq<Path>, walked: seq<Path>) {
    exists counts, top, tie ::
      && Tallies(counts, files) && IsTop(counts, top) && TieBreaks(walked, tie)
      && IsClose(counts, top, DominantOf(top, tie))
  }

  /** A manifest changes the answer exactly when the call is close and the manifest's language has files. */
  lemma ManifestDecidesIff(walked: seq<Path>, retried: seq<Path>, manifest: Language, r: Option<Language>,
                           plain: Option<Language>)
    requires IsAnswer(walked, retried, Some(manifest), r) && IsAnswer(walked, retried, None, plain)
    ensures var files := Deciding(walked, retried);
      r == if CloseCall(files, walked) && CountOf(files, manifest) > 0 then Some(manifest) else plain
  {
    var files := Deciding(walked, retried);
    if Untold(files) {
      assert CountOf(files, manifest) == 0;
    } else {
      hide Deciding;
      ManifestDecides(files, walked, manifest, r, plain);
    }
  }

  lemma ManifestDecides(files: seq<Path>, walked: seq<Path>, manifest: Language, r: Option<Language>,
                        plain: Option<Language>)
    requires IsTold(files, walked, Some(manifest), r) && IsTold(files, walked, None, plain)
    ensures r == if CloseCall(files, walked) && CountOf(files, manifest) > 0 then Some(manifest) else plain
  {
    hide CountOf;
    hide Tallies;
    hide TieBreaks;
    hide IsTop;
    hide IsClose;
    var counts, top, tie :| Tallies(counts, files) && IsTop(counts, top) && TieBreaks(walked, tie)
      && r == Some(Choose(counts, top, tie, Some(manifest)));
    hide IsTold;
    ToldIs(files, files, walked, walked, None, plain, counts, top, tie);
    CloseIs(files, walked, counts, top, tie);
    TalliedHasFiles(counts, files, manifest);
  }

  lemma TalliedHasFiles(counts: Counts, files: seq<Path>, l: Language)
    requires Tallies(counts, files)
    ensures l in counts <==> CountOf(files, l) > 0
  {
  }

  lemma CloseIs(files: seq<Path>, walked: seq<Path>, counts: Counts, top: Language, tie: Language)
    requires Tallies(counts, files) && IsTop(counts, top) && TieBreaks(walked, tie)
    ensures CloseCall(files, walked) <==> IsClose(counts, top, DominantOf(top, tie))
  {
    hide CountOf;
    hide Tallies;
    hide TieBreaks;
    hide IsTop;
    hide IsClose;
    if CloseCall(files, walked) {
      var counts', top', tie' :| Tallies(counts', files) && IsTop(counts', top') && TieBreaks(walked, tie')
        && IsClose(counts', top', DominantOf(top', tie'));
      hide *;
      OneOutcome(files, walked, counts, top, tie, counts', top', tie');
    }
  }

  lemma OneOutcome(files: seq<Path>, walked: seq<Path>, counts: Counts, top: Language, tie: Language,
                   counts': Counts, top': Language, tie': Language)
    requires Tallies(counts, files) && IsTop(counts, top) && TieBreaks(walked, tie)
    requires Tallies(counts', files) && IsTop(counts', top') && TieBreaks(walked, tie')
    ensures counts == counts' && top == top' && tie == tie'
  {
    hide *;
    TallyUnique(counts, counts', files, files);
    TopUnique(counts, top, top');
    TieUnique(walked, walked, tie, tie');
  }

  lemma {:induction false} CountPositiveIff(files: seq<Path>, test: Path -> bool)
    ensures Count(files, test) > 0 <==> exists i :: 0 <= i < |files| && test(files[i])
  {
    if files != [] {
      var init := files[..|files| - 1];
      CountPositiveIff(init, test);
      if i :| 0 <= i < |files| && test(files[i]) {
        assert i < |files| - 1 ==> init[i] == files[i];
      }
      if i :| 0 <= i < |init| && test(init[i]) {
        assert files[i] == init[i];
      }
    }
  }

  /** No documentation, no capital letters in extensions and none of the spellings the tie-break does not know. */
  predicate IsPlain(file: Path) {
    !IsNoise(file) &&
    var extension := Extension(NameOfFile(file));
    extension.Some? ==> Lower(extension.value) == extension.value && extension.value !in ["c++", "h++"]
  }

  lemma PlainTells(file: Path)
    requires IsPlain(file)
    ensures HasExtension(file, ["swift"]) ==> Tells(file, Swift)
    ensures HasExtension(file, ["rs"]) ==> Tells(file, Rust)
    ensures HasExtension(file, ["c"]) ==> Tells(file, C)
    ensures HasExtension(file, CPP_EXTENSIONS) <==> Tells(file, Cpp)
  {
    hide LastDot;
    hide Extension;
    hide Lower;
    hide IsNoise;
  }

  lemma SomeTells(files: seq<Path>, extensions: seq<string>, l: Language)
    requires forall file :: file in files && HasExtension(file, extensions) ==> Tells(file, l)
    requires Count(files, Having(extensions)) > 0
    ensures CountOf(files, l) > 0
  {
    CountPositiveIff(files, Having(extensions));
    var i :| 0 <= i < |files| && Having(extensions)(files[i]);
    assert files[i] in files && Telling(l)(files[i]);
    CountPositiveIff(files, Telling(l));
  }

  lemma PlainTie(walked: seq<Path>, tie: Language)
    requires forall file :: file in walked ==> IsPlain(file)
    requires TieBreaks(walked, tie)
    ensures CountOf(walked, tie) > 0 || (tie == C && CountOf(walked, Cpp) == 0)
  {
    forall file | file in walked
      ensures HasExtension(file, ["swift"]) ==> Tells(file, Swift)
      ensures HasExtension(file, ["rs"]) ==> Tells(file, Rust)
      ensures HasExtension(file, ["c"]) ==> Tells(file, C)
      ensures HasExtension(file, CPP_EXTENSIONS) <==> Tells(file, Cpp)
    {
      PlainTells(file);
    }
    hide HasExtension;
    hide Tells;
    if tie == Swift {
      SomeTells(walked, ["swift"], Swift);
    } else if tie == Rust {
      SomeTells(walked, ["rs"], Rust);
    } else if CppFiles(walked) > 0 {
      SomeTells(walked, CPP_EXTENSIONS, Cpp);
      if tie == C {
        SomeTells(walked, ["c"], C);
      }
    } else if FilesWith(walked, "c") > 0 {
      SomeTells(walked, ["c"], C);
    } else {
      CountPositiveIff(walked, Having(CPP_EXTENSIONS));
      CountPositiveIff(walked, Telling(Cpp));
      assert forall i :: 0 <= i < |walked| && Telling(Cpp)(walked[i]) ==> Having(CPP_EXTENSIONS)(walked[i]);
    }
  }

  /** C or C++ ranks first by the number of its files. */
  ghost predicate FamilyLeads(files: seq<Path>) {
    exists top :: IsFamily(top) && Leads(files, top)
  }

  ghost predicate Leads(files: seq<Path>, top: Language) {
    && CountOf(files, top) > 0
    && forall l :: l != top && CountOf(files, l) > 0 ==>
         Before(Ranked(top, CountOf(files, top)), Ranked(l, CountOf(files, l)))
  }

  /** The language that the four extension counts select has files. */
  ghost predicate TieHasFiles(files: seq<Path>, walked: seq<Path>) {
    exists tie :: TieBreaks(walked, tie) && CountOf(files, tie) > 0
  }

  /**
   The answered language has files exactly unless C or C++ leads, the language that the extension counts select has
   none, and no manifest of a language with files decides a close call.
   */
  lemma AnswerHasFilesIff(walked: seq<Path>, retried: seq<Path>, manifest: Option<Language>, l: Language)
    requires IsAnswer(walked, retried, manifest, Some(l))
    ensures var files := Deciding(walked, retried);
      CountOf(files, l) > 0 <==>
        (FamilyLeads(files) ==>
           || TieHasFiles(files, walked)
           || (manifest.Some? && CountOf(files, manifest.value) > 0 && CloseCall(files, walked)))
  {
    var files := Deciding(walked, retried);
    hide Deciding;
    hide CountOf;
    hide TieBreaks;
    hide IsTop;
    hide Tallies;
    hide IsClose;
    var counts, top, tie :| Tallies(counts, files) && IsTop(counts, top) && TieBreaks(walked, tie)
      && Some(l) == Some(Choose(counts, top, tie, manifest));
    hide *;
    ChosenHasFilesIff(files, walked, counts, top, tie, manifest);
  }

  lemma ChosenHasFilesIff(files: seq<Path>, walked: seq<Path>, counts: Counts, top: Language, tie: Language,
                          manifest: Option<Language>)
    requires Tallies(counts, files) && IsTop(counts, top) && TieBreaks(walked, tie)
    ensures CountOf(files, Choose(counts, top, tie, manifest)) > 0 <==>
      (FamilyLeads(files) ==>
         || TieHasFiles(files, walked)
         || (manifest.Some? && CountOf(files, manifest.value) > 0 && CloseCall(files, walked)))
  {
    CloseIs(files, walked, counts, top, tie);
    LeaderIsTop(files, counts, top);
    TieIs(files, walked, tie);
    TalliedHasFiles(counts, files, Choose(counts, top, tie, manifest));
    TalliedHasFiles(counts, files, top);
    TalliedHasFiles(counts, files, tie);
    if manifest.Some? {
      TalliedHasFiles(counts, files, manifest.value);
    }
    hide CountOf;
    hide TieBreaks;
    hide IsTop;
    hide Tallies;
    hide IsClose;
    hide FamilyLeads;
    hide TieHasFiles;
    hide CloseCall;
  }

  lemma LeaderIsTop(files: seq<Path>, counts: Counts, top: Language)
    requires Tallies(counts, files) && IsTop(counts, top)
    ensures FamilyLeads(files) <==> IsFamily(top)
    ensures top in counts
  {
    hide CountOf;
    hide Before;
    if other :| IsFamily(other) && Leads(files, other) {
      assert IsTop(counts, other);
      TopUnique(counts, top, other);
    }
    assert Leads(files, top);
  }

  lemma TieIs(files: seq<Path>, walked: seq<Path>, tie: Language)
    requires TieBreaks(walked, tie)
    ensures TieHasFiles(files, walked) <==> CountOf(files, tie) > 0
  {
    hide CountOf;
    hide TieBreaks;
    if other :| TieBreaks(walked, other) && CountOf(files, other) > 0 {
      TieUnique(walked, walked, tie, other);
    }
  }

  /** In particular, when all files are plain. */
  lemma PlainAnswerHasFiles(walked: seq<Path>, retried: seq<Path>, manifest: Option<Language>, l: Language)
    requires forall file :: file in walked ==> IsPlain(file)
    requires !Untold(walked) && IsAnswer(walked, retried, manifest, Some(l))
    ensures CountOf(walked, l) > 0
  {
    AnswerHasFilesIff(walked, retried, manifest, l);
    hide IsPlain;
    hide CountOf;
    hide TieBreaks;
    hide IsAnswer;
    hide CloseCall;
    if FamilyLeads(walked) {
      var top :| IsFamily(top) && Leads(walked, top);
      var tie := TieExists(walked);
      PlainTie(walked, tie);
      assert CountOf(walked, tie) > 0;
      assert TieHasFiles(walked, walked);
    }
  }

  lemma TieExists(walked: seq<Path>) returns (tie: Language)
    ensures TieBreaks(walked, tie)
  {
    hide Count;
    var c, cpp, swift, rust :=
      FilesWith(walked, "c"), CppFiles(walked), FilesWith(walked, "swift"), FilesWith(walked, "rs");
    tie := if swift > c + cpp && swift >= rust then Swift
           else if rust > c + cpp && rust > swift then Rust
           else if cpp > c then Cpp else C;
  }

  /** A project whose one file has a spelling that the tie-break does not know is reported as C, and has no C file. */
  lemma PlusPlusIsCalledC(retried: seq<Path>)
    ensures var walked := [["a.c++"]];
      && CountOf(walked, Cpp) == 1 && CountOf(walked, C) == 0
      && IsAnswer(walked, retried, None, Some(C))
  {
    var walked, file := [["a.c++"]], ["a.c++"];
    PlusPlusFile();
    hide FromName;
    hide Extension;
    hide Lower;
    hide LastDot;
    hide IsNoise;
    assert walked[..0] == [];
    forall l ensures CountOf(walked, l) == if l == Cpp then 1 else 0 {
      assert Telling(l)(file) <==> l == Cpp;
    }
    var counts: Counts := map[Cpp := 1];
    assert Tallies(counts, walked);
    assert IsTop(counts, Cpp);
    assert !Having(["c"])(file) && !Having(["swift"])(file) && !Having(["rs"])(file) && !Having(CPP_EXTENSIONS)(file);
    assert TieBreaks(walked, C);
    hide CountOf;
    hide Count;
    AnswerFrom(walked, retried, counts, Cpp, C, None);
  }

  lemma PlusPlusFile()
    ensures Extension("a.c++") == Some("c++") && FromName("a.c++") == Some(Cpp) && !IsNoise(["a.c++"])
  {
    var name := "a.c++";
    assert name[1] == '.' && name[2] == 'c' && name[3] == '+' && name[4] == '+';
    assert LastDot(name) == 1;
    assert "a.c++"[2..] == "c++";
    assert Lower("c++") == "c++" by {
      assert "c++"[1..] == "++" && "++"[1..] == "+" && "+"[1..] == "";
    }
  }

  /** A file, or a link to one. */
  predicate IsFile(node: Node) {
    node.File? || (node.Link? && node.toFile)
  }

  /** The files among walked entries. */
  function FilesIn(root: Node, paths: seq<Path>): seq<Path> {
    if paths == [] then []
    else
      var found := Lookup(root, paths[0]);
      (if found.Some? && IsFile(found.value) then [paths[0]] else []) + FilesIn(root, paths[1..])
  }

  /** While ignore files are respected the second walk never helps: it sees what the first one saw. */
  lemma RetryNeverHelps(w: ProjectWalker, dominated: bool, root: Node, manifest: Option<Language>, r: Option<Language>)
    requires w.deny.Some?
    requires IsAnswer(FilesIn(root, Iter(w.(defaultIgnore := true), dominated, root)),
                      FilesIn(root, Iter(w.(defaultIgnore := false), dominated, root)), manifest, r)
    ensures r == None <==> Untold(FilesIn(root, Iter(w.(defaultIgnore := true), dominated, root)))
  {
    NoDefaultIgnoreChangesNothing(w, (w.langHint.None? && dominated) || IsJsTs(w.langHint), [], root);
    hide Choose;
  }

  /** Few files make no call close: two files of Rust against one of Go, in a Go module, are answered as Rust. */
  lemma HandfulIsNoCloseCall(retried: seq<Path>)
    ensures var walked := [["a.rs"], ["b.rs"], ["c.go"]];
      && CountOf(walked, Rust) == 2 && CountOf(walked, Go) == 1
      && IsAnswer(walked, retried, Some(Go), Some(Rust))
  {
    var walked := [["a.rs"], ["b.rs"], ["c.go"]];
    var counts: Counts := map[Rust := 2, Go := 1];
    forall l ensures CountOf(walked, l) == if l == Rust then 2 else if l == Go then 1 else 0 {
      HandfulCounts(l);
    }
    assert Tallies(counts, walked) by {
      hide CountOf;
    }
    var tie := TieExists(walked);
    HandfulIsFar(counts, tie);
    hide *;
    AnswerFrom(walked, retried, counts, Rust, tie, Some(Go));
  }

  lemma HandfulIsFar(counts: Counts, tie: Language)
    requires counts == map[Rust := 2, Go := 1]
    ensures IsTop(counts, Rust) && Choose(counts, Rust, tie, Some(Go)) == Rust
  {
  }

  lemma AnswerFrom(walked: seq<Path>, retried: seq<Path>, counts: Counts, top: Language, tie: Language,
                   manifest: Option<Language>)
    requires Tallies(counts, walked) && IsTop(counts, top) && TieBreaks(walked, tie)
    ensures IsAnswer(walked, retried, manifest, Some(Choose(counts, top, tie, manifest)))
  {
    EmptyIffUntold(counts, walked);
    hide CountOf;
    hide Tallies;
    hide TieBreaks;
    hide Choose;
    assert counts != map[];
  }

  lemma HandfulCounts(l: Language)
    ensures CountOf([["a.rs"], ["b.rs"], ["c.go"]], l) == if l == Rust then 2 else if l == Go then 1 else 0
  {
    var a, b, c := ["a.rs"], ["b.rs"], ["c.go"];
    SourceFile("a.rs", "rs", Rust);
    SourceFile("b.rs", "rs", Rust);
    SourceFile("c.go", "go", Go);
    CountThree(a, b, c, Telling(l));
    FileTells("a.rs", Rust, l);
    FileTells("b.rs", Rust, l);
    FileTells("c.go", Go, l);
    hide *;
  }

  lemma FileTells(name: string, language: Language, l: Language)
    requires FromName(name) == Some(language) && !IsNoise([name])
    ensures Telling(l)([name]) <==> l == language
  {
    hide FromName;
    hide IsNoise;
    assert NameOfFile([name]) == name;
  }

  lemma CountThree(a: Path, b: Path, c: Path, test: Path -> bool)
    ensures Count([a, b, c], test)
         == (if test(a) then 1 else 0) + (if test(b) then 1 else 0) + (if test(c) then 1 else 0)
  {
    var three, two, one := [a, b, c], [a, b], [a];
    assert three[..2] == two && two[..1] == one && one[..0] == [];
    assert Count(one, test) == if test(a) then 1 else 0;
    assert Count(two, test) == Count(one, test) + if test(b) then 1 else 0;
  }

  lemma SourceFile(name: string, extension: string, l: Language)
    requires |name| == 4 && name[1] == '.' && name[2..] == extension
    requires (extension == "rs" && l == Rust) || (extension == "go" && l == Go)
    ensures FromName(name) == Some(l) && !IsNoise([name])
  {
    assert name[2] == extension[0] && name[3] == extension[1];
    assert LastDot(name) == 1;
    assert Lower(extension) == extension by {
      assert extension[1..] == [extension[1]] && [extension[1]][1..] == [];
    }
    assert name !in NOISE_DIRS by {
      assert "docs"[1] == 'o' && |"doc"| == 3;
    }
  }
}
