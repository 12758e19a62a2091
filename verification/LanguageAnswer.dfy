/** The answered language in terms of file counts alone, and which walked entries are counted. */
module LanguageAnswer {
  import opened Options
  import opened Ordering
  import opened Languages
  import opened Walker
  import opened LanguageRank

  // ----- Which entries count -----

  /** How often a path is counted as a file: as often as it was walked, if a file or a link to one stands there. */
  lemma {:induction false} FilesAreCounted(root: Node, paths: seq<Path>, file: Path)
    ensures multiset(FilesIn(root, paths))[file]
         == if Lookup(root, file) in {Some(File), Some(Link(true))} then multiset(paths)[file] else 0
  {
    if paths != [] {
      assert paths == [paths[0]] + paths[1..];
      FilesAreCounted(root, paths[1..], file);
      hide Lookup;
      hide FilesIn;
      FirstIsCounted(root, paths);
    }
  }

  lemma FirstIsCounted(root: Node, paths: seq<Path>)
    requires paths != []
    ensures FilesIn(root, paths)
         == (if Lookup(root, paths[0]) in {Some(File), Some(Link(true))} then [paths[0]] else [])
            + FilesIn(root, paths[1..])
  {
    hide Lookup;
  }

  // ----- Who leads -----

  /** No language has more files, and of those with as many it has the least name. */
  lemma LeadsIff(files: seq<Path>, top: Language)
    ensures Leads(files, top) <==>
      && CountOf(files, top) > 0
      && (forall l :: CountOf(files, l) <= CountOf(files, top))
      && (forall l :: l != top && CountOf(files, l) == CountOf(files, top) ==> Less(NameOf(top), NameOf(l)))
  {
    hide CountOf;
    hide NameOf;
    hide Less;
    if Leads(files, top) {
      forall l ensures CountOf(files, l) <= CountOf(files, top) {
        assert l != top && CountOf(files, l) > 0 ==>
          Before(Ranked(top, CountOf(files, top)), Ranked(l, CountOf(files, l)));
      }
    }
  }

  ghost function TallyOf(files: seq<Path>): Counts {
    map l: Language | CountOf(files, l) > 0 :: CountOf(files, l)
  }

  lemma TopOfTally(files: seq<Path>, top: Language)
    ensures Tallies(TallyOf(files), files)
    ensures Leads(files, top) <==> IsTop(TallyOf(files), top)
  {
    hide CountOf;
    hide Before;
  }

  // ----- A close call -----

  /** A rival has four fifths of the leader's files. C and C++ are no rivals, and count together, if one is to win. */
  ghost predicate Rivalled(files: seq<Path>, top: Language, tie: Language) {
    if top in {C, Cpp} && tie in {C, Cpp} then
      exists l :: l !in {C, Cpp} && CountOf(files, l) > 0
        && 100 * CountOf(files, l) >= 80 * (CountOf(files, C) + CountOf(files, Cpp))
    else
      exists l :: l != top && CountOf(files, l) > 0 && 100 * CountOf(files, l) >= 80 * CountOf(files, top)
  }

  predicate IsMerged(top: Language, tie: Language) {
    top in {C, Cpp} && tie in {C, Cpp}
  }

  lemma RivalsAre(files: seq<Path>, top: Language, tie: Language, l: Language)
    requires top in TallyOf(files)
    ensures IsRival(TallyOf(files), top, DominantOf(top, tie), l) <==>
      CountOf(files, l) > 0 && if IsMerged(top, tie) then l !in {C, Cpp} else l != top
  {
    hide CountOf;
  }

  lemma DominantCountIs(files: seq<Path>, top: Language, tie: Language)
    requires top in TallyOf(files)
    ensures DominantCount(TallyOf(files), top, DominantOf(top, tie))
         == if IsMerged(top, tie) then CountOf(files, C) + CountOf(files, Cpp) else CountOf(files, top)
  {
    hide CountOf;
  }

  lemma TalliedAt(files: seq<Path>, l: Language)
    requires CountOf(files, l) > 0
    ensures l in TallyOf(files) && TallyOf(files)[l] == CountOf(files, l)
  {
    hide CountOf;
  }

  lemma CloseIffRivalled(files: seq<Path>, top: Language, tie: Language)
    requires Leads(files, top)
    ensures IsClose(TallyOf(files), top, DominantOf(top, tie)) <==> Rivalled(files, top, tie)
  {
    TopOfTally(files, top);
    DominantCountIs(files, top, tie);
    var counts, dominant := TallyOf(files), DominantOf(top, tie);
    forall l ensures IsRival(counts, top, dominant, l) <==>
      CountOf(files, l) > 0 && if IsMerged(top, tie) then l !in {C, Cpp} else l != top {
      RivalsAre(files, top, tie, l);
    }
    forall l | CountOf(files, l) > 0 ensures l in counts && counts[l] == CountOf(files, l) {
      TalliedAt(files, l);
    }
    hide TallyOf;
    hide CountOf;
    hide DominantOf;
    hide DominantCount;
    hide IsRival;
    hide Leads;
    hide IsTop;
  }

  /**
   Without files that tell, there is no answer. Otherwise it is the leader, or what the four extension counts select
   where C or C++ leads, unless the leader is rivalled and the manifests name a language that has files.
   */
  lemma AnswerIs(walked: seq<Path>, retried: seq<Path>, manifest: Option<Language>, r: Option<Language>)
    returns (top: Language, tie: Language)
    requires IsAnswer(walked, retried, manifest, r)
    ensures TieBreaks(walked, tie)
    ensures var files := Deciding(walked, retried);
      if forall l :: CountOf(files, l) == 0 then r == None
      else
        && Leads(files, top)
        && r == if manifest.Some? && CountOf(files, manifest.value) > 0 && Rivalled(files, top, tie) then manifest
                else if top in {C, Cpp} then Some(tie)
                else Some(top)
  {
    var files := Deciding(walked, retried);
    hide Deciding;
    hide CountOf;
    hide TieBreaks;
    if Untold(files) {
      top := C;
      tie := TieExists(walked);
    } else {
      var counts;
      counts, top, tie := Witnesses(files, walked, manifest, r);
      TopOfTally(files, top);
      TallyUnique(counts, TallyOf(files), files, files);
      hide *;
      ChoiceIs(files, top, tie, manifest);
    }
    TellsNothing(files);
  }

  lemma TellsNothing(files: seq<Path>)
    ensures Untold(files) <==> forall l :: CountOf(files, l) == 0
  {
  }

  lemma Witnesses(files: seq<Path>, walked: seq<Path>, manifest: Option<Language>, r: Option<Language>)
    returns (counts: Counts, top: Language, tie: Language)
    requires IsTold(files, walked, manifest, r)
    ensures Tallies(counts, files) && IsTop(counts, top) && TieBreaks(walked, tie)
    ensures r == Some(Choose(counts, top, tie, manifest))
  {
    hide Tallies;
    hide IsTop;
    hide TieBreaks;
    hide Choose;
    counts, top, tie :| Tallies(counts, files) && IsTop(counts, top) && TieBreaks(walked, tie)
      && r == Some(Choose(counts, top, tie, manifest));
  }

  lemma ChoiceIs(files: seq<Path>, top: Language, tie: Language, manifest: Option<Language>)
    requires Leads(files, top)
    ensures Some(Choose(TallyOf(files), top, tie, manifest))
         == if manifest.Some? && CountOf(files, manifest.value) > 0 && Rivalled(files, top, tie) then manifest
            else if top in {C, Cpp} then Some(tie)
            else Some(top)
  {
    CloseIffRivalled(files, top, tie);
    hide CountOf;
    hide IsClose;
    hide Rivalled;
    hide Leads;
  }
}
