/** How far the language of a project depends on the order in which its directories list their entries. */
module ProjectLanguage {
  import opened Options
  import opened Languages
  import opened Walker
  import opened LanguageRank
  import opened ManifestRank

  /** The answer for the files walked and the manifests listed. */
  ghost predicate IsProjectAnswer(walked: seq<Path>, retried: seq<Path>, p: Project, facts: Facts, r: Option<Language>)
  {
    exists opinion :: IsOpinion(Listing(p), facts, opinion) && IsAnswer(walked, retried, opinion, r)
  }

  /** Listing directories in another order, for the walks and for the manifests, can change the answer. */
  ghost predicate OrderMatters(walked: seq<Path>, retried: seq<Path>, p: Project, facts: Facts) {
    exists walked', retried', p', r, r' ::
      && multiset(walked) == multiset(walked') && multiset(retried) == multiset(retried') && Reordered(p, p')
      && IsProjectAnswer(walked, retried, p, facts, r) && IsProjectAnswer(walked', retried', p', facts, r')
      && r != r'
  }

  /** What the answer is when the manifests speak for a language. */
  ghost function WithOpinion(files: seq<Path>, walked: seq<Path>, opinion: Language, plain: Option<Language>)
    : Option<Language>
  {
    if CloseCall(files, walked) && CountOf(files, opinion) > 0 then Some(opinion) else plain
  }

  /** The two opinions that may stand against each other lead to different answers. */
  ghost predicate DifferenceShows(files: seq<Path>, plain: Option<Language>) {
    || (CountOf(files, TypeScript) > 0 && CountOf(files, JavaScript) > 0)
    || (CountOf(files, TypeScript) > 0 && plain != Some(TypeScript))
    || (CountOf(files, JavaScript) > 0 && plain != Some(JavaScript))
  }

  /** There is an answer for every opinion once there is one without. */
  lemma AnswerExists(walked: seq<Path>, retried: seq<Path>, plain: Option<Language>, opinion: Option<Language>)
    returns (r: Option<Language>)
    requires IsAnswer(walked, retried, None, plain)
    ensures IsAnswer(walked, retried, opinion, r)
  {
    var files := Deciding(walked, retried);
    if Untold(files) {
      r := None;
    } else {
      hide CountOf;
      hide Choose;
      var counts, top, tie :|
        && Tallies(counts, files) && IsTop(counts, top) && TieBreaks(walked, tie)
        && plain == Some(Choose(counts, top, tie, None));
      r := Some(Choose(counts, top, tie, opinion));
    }
  }

  /** While `package.json` files decide, the opinion is one of two. */
  lemma DisputedOpinion(dirs: seq<Directory>, facts: Facts, f: Found, r: Option<Language>)
    requires IsBest(dirs, f) && MANIFEST_PRECEDENCE[f.kind] == PackageJson && IsOpinion(dirs, facts, r)
    ensures r == Some(TypeScript) || r == Some(JavaScript)
  {
    assert Holds(dirs, f);
    var w :| IsWinner(dirs, w) && r == Some(LanguageOf(MANIFEST_PRECEDENCE[w.kind], dirs[w.dir], facts));
    BestAreAlike(dirs, f, w);
  }

  /** An answer, whatever the order of the walks. */
  lemma AnswerIs(walked: seq<Path>, retried: seq<Path>, walked': seq<Path>, retried': seq<Path>,
                 plain: Option<Language>, opinion: Language, r: Option<Language>)
    requires multiset(walked) == multiset(walked') && multiset(retried) == multiset(retried')
    requires IsAnswer(walked, retried, None, plain) && IsAnswer(walked', retried', Some(opinion), r)
    ensures r == WithOpinion(Deciding(walked, retried), walked, opinion, plain)
  {
    var r' := AnswerExists(walked, retried, plain, Some(opinion));
    AnswerIgnoresOrder(walked, walked', retried, retried', Some(opinion), r', r);
    ManifestDecidesIff(walked, retried, opinion, r', plain);
  }

  lemma AgreementDecides(walked: seq<Path>, retried: seq<Path>, p: Project, facts: Facts)
    requires AgreeOnTypeScript(Listing(p))
    ensures !OrderMatters(walked, retried, p, facts)
  {
    hide IsAnswer;
    hide IsOpinion;
    hide Listing;
    forall walked', retried', p', r, r'
      | multiset(walked) == multiset(walked') && multiset(retried) == multiset(retried') && Reordered(p, p')
        && IsProjectAnswer(walked, retried, p, facts, r) && IsProjectAnswer(walked', retried', p', facts, r')
      ensures r == r'
    {
      var o :| IsOpinion(Listing(p), facts, o) && IsAnswer(walked, retried, o, r);
      var o' :| IsOpinion(Listing(p'), facts, o') && IsAnswer(walked', retried', o', r');
      ReorderedListsTheSame(p, p');
      AgreeingOpinionsAgree(Listing(p), Listing(p'), facts, o, o');
      AnswerIgnoresOrder(walked, walked', retried, retried', o, r, r');
    }
  }

  lemma HiddenDifference(walked: seq<Path>, retried: seq<Path>, p: Project, facts: Facts, plain: Option<Language>,
                         f: Found)
    requires IsAnswer(walked, retried, None, plain)
    requires IsBest(Listing(p), f) && MANIFEST_PRECEDENCE[f.kind] == PackageJson
    requires var files := Deciding(walked, retried);
      WithOpinion(files, walked, TypeScript, plain) == WithOpinion(files, walked, JavaScript, plain)
    ensures !OrderMatters(walked, retried, p, facts)
  {
    hide IsAnswer;
    hide IsOpinion;
    hide Listing;
    hide WithOpinion;
    hide Deciding;
    var files := Deciding(walked, retried);
    forall walked', retried', p', r, r'
      | multiset(walked) == multiset(walked') && multiset(retried) == multiset(retried') && Reordered(p, p')
        && IsProjectAnswer(walked, retried, p, facts, r) && IsProjectAnswer(walked', retried', p', facts, r')
      ensures r == r'
    {
      var o :| IsOpinion(Listing(p), facts, o) && IsAnswer(walked, retried, o, r);
      var o' :| IsOpinion(Listing(p'), facts, o') && IsAnswer(walked', retried', o', r');
      ReorderedListsTheSame(p, p');
      var j := SomewhereElse(Listing(p), Listing(p'), f.dir);
      BestElsewhere(Listing(p), Listing(p'), f, j);
      DisputedOpinion(Listing(p), facts, f, o);
      DisputedOpinion(Listing(p'), facts, Found(f.kind, j), o');
      AnswerIs(walked, retried, walked, retried, plain, o.value, r);
      AnswerIs(walked, retried, walked', retried', plain, o'.value, r');
    }
  }

  lemma ShownDifference(walked: seq<Path>, retried: seq<Path>, p: Project, facts: Facts, plain: Option<Language>,
                        f: Found)
    requires WellPlaced(p) && IsAnswer(walked, retried, None, plain) && !AgreeOnTypeScript(Listing(p))
    requires IsBest(Listing(p), f) && MANIFEST_PRECEDENCE[f.kind] == PackageJson
    requires var files := Deciding(walked, retried);
      WithOpinion(files, walked, TypeScript, plain) != WithOpinion(files, walked, JavaScript, plain)
    ensures OrderMatters(walked, retried, p, facts)
  {
    hide IsAnswer;
    hide IsOpinion;
    hide Listing;
    hide WithOpinion;
    hide Deciding;
    OrderIrrelevantIff(p, facts);
    var p', o, o' :|
      Reordered(p, p') && IsOpinion(Listing(p), facts, o) && IsOpinion(Listing(p'), facts, o') && o != o';
    ReorderedListsTheSame(p, p');
    var j := SomewhereElse(Listing(p), Listing(p'), f.dir);
    BestElsewhere(Listing(p), Listing(p'), f, j);
    DisputedOpinion(Listing(p), facts, f, o);
    DisputedOpinion(Listing(p'), facts, Found(f.kind, j), o');
    var r := AnswerExists(walked, retried, plain, o);
    var r' := AnswerExists(walked, retried, plain, o');
    AnswerIs(walked, retried, walked, retried, plain, o.value, r);
    AnswerIs(walked, retried, walked, retried, plain, o'.value, r');
    assert IsProjectAnswer(walked, retried, p, facts, r) && IsProjectAnswer(walked, retried, p', facts, r');
  }

  /**
   The answer depends on the order in which directories list their entries exactly when the call is close, the
   deciding `package.json` files disagree, and there are files that let the disagreement show.
   */
  lemma OrderMattersIff(walked: seq<Path>, retried: seq<Path>, p: Project, facts: Facts, plain: Option<Language>)
    requires WellPlaced(p) && IsAnswer(walked, retried, None, plain)
    ensures var files := Deciding(walked, retried);
      OrderMatters(walked, retried, p, facts) <==>
        && CloseCall(files, walked) && !AgreeOnTypeScript(Listing(p)) && DifferenceShows(files, plain)
  {
    var files := Deciding(walked, retried);
    assert CloseCall(files, walked) && DifferenceShows(files, plain) <==>
      WithOpinion(files, walked, TypeScript, plain) != WithOpinion(files, walked, JavaScript, plain);
    hide IsAnswer;
    hide Deciding;
    hide WithOpinion;
    hide DifferenceShows;
    hide CloseCall;
    hide OrderMatters;
    if AgreeOnTypeScript(Listing(p)) {
      AgreementDecides(walked, retried, p, facts);
    } else {
      var f, g :| IsBest(Listing(p), f) && IsBest(Listing(p), g) && MANIFEST_PRECEDENCE[f.kind] == PackageJson
        && Listing(p)[f.dir].typescript != Listing(p)[g.dir].typescript;
      if WithOpinion(files, walked, TypeScript, plain) == WithOpinion(files, walked, JavaScript, plain) {
        HiddenDifference(walked, retried, p, facts, plain, f);
      } else {
        ShownDifference(walked, retried, p, facts, plain, f);
      }
    }
  }
}
