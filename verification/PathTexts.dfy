/** What the text of a path says, piece by piece, and that collecting the components of a path changes none of them. */
module PathTexts {
  import opened Sequences
  import opened Splitting
  import opened StableSort
  import opened Paths

  /** The pieces between slashes that name something. */
  function Naming(): string -> bool {
    (p: string) => p != "" && p != "."
  }

  predicate IsRooted(text: string) {
    text != [] && text[0] == '/'
  }

  predicate StartsWithDot(text: string) {
    text == "." || (|text| > 1 && text[0] == '.' && text[1] == '/')
  }

  /** A normalised path is rooted if its text starts with a slash, and steps through the pieces that name something. */
  lemma NormalizedIs(text: string)
    ensures var path := Normalized(text);
      && (path != [] && path[0] == RootDir <==> IsRooted(text))
      && Steps(if IsRooted(text) then path[1..] else path)
      && StepTexts(if IsRooted(text) then path[1..] else path) == Filter(Split(text, '/'), Naming())
  {
    SplitPieces(text, '/');
    NormalizedIsPlain(text);
    PiecesAreSteps(Split(text, '/'));
    NamingPieces(Split(text, '/'));
    var steps := Pieces(Split(text, '/'));
    TailOfCons(RootDir, steps);
    assert [] + steps == steps;
    hide *;
    assert Steps(steps) && steps != [] ==> IsStep(steps[0]) by {
      FirstStep(steps);
    }
    assert !IsStep(RootDir) by {
      RootIsNoStep();
    }
    assert IsRooted(text) <==> text != [] && text[0] == '/' by {
      RootedMeans(text);
    }
  }

  lemma RootedMeans(text: string)
    ensures IsRooted(text) <==> text != [] && text[0] == '/'
  {
  }

  lemma RootIsNoStep()
    ensures !IsStep(RootDir) && !IsStep(CurDir)
  {
  }

  lemma FirstStep(steps: Path)
    requires Steps(steps)
    ensures steps != [] ==> IsStep(steps[0])
  {
  }

  lemma {:induction false} NamingPieces(ps: seq<string>)
    ensures StepTexts(Pieces(ps)) == Filter(ps, Naming())
  {
    if ps != [] {
      NamingPieces(ps[1..]);
      OnePiece(ps[0], Pieces(ps[1..]));
    }
  }

  lemma OnePiece(p: string, path: Path)
    ensures StepTexts(Piece(p) + path) == (if Naming()(p) then [p] else []) + StepTexts(path)
  {
    if Naming()(p) {
      TailOfCons(Piece(p)[0], path);
    } else {
      assert Piece(p) + path == path;
    }
  }

  /** A dot is a component only as the first piece of a path. */
  lemma DotsCountAtTheStart(text: string)
    ensures forall i :: 0 <= i < |Components(text)| && Components(text)[i] == CurDir ==> i == 0
    ensures Components(text) != [] && Components(text)[0] == CurDir <==> StartsWithDot(text)
  {
    ComponentsAre(text);
    FirstStep(Pieces(Split(text, '/')));
    RootIsNoStep();
    hide Components;
    hide Pieces;
  }

  /** The components of a path are an optional root or dot, and steps. */
  lemma ComponentsAre(text: string)
    ensures Steps(Pieces(Split(text, '/')))
    ensures Components(text)
         == (if IsRooted(text) then [RootDir] else if StartsWithDot(text) then [CurDir] else [])
            + Pieces(Split(text, '/'))
  {
    SplitPieces(text, '/');
    PiecesAreSteps(Split(text, '/'));
    FirstPieceIsDot(text);
    var steps := Pieces(Split(text, '/'));
    hide Split;
    hide Pieces;
    assert [] + steps == steps;
  }

  lemma FirstPieceIsDot(text: string)
    ensures Split(text, '/')[0] == "." <==> StartsWithDot(text)
  {
    if text != [] {
      var rest := Split(text[1..], '/');
      HeadAndTail(text);
      FirstPieceIsEmpty(text[1..]);
      assert Split(text, '/')[0] == if text[0] == '/' then [] else [text[0]] + rest[0];
      hide Split;
      DotIs(text[0], rest[0]);
    }
  }

  lemma DotIs(c: char, rest: string)
    ensures [c] + rest == "." <==> c == '.' && rest == []
  {
    TailOfCons(c, rest);
    assert "."[1..] == "";
  }

  lemma FirstPieceIsEmpty(s: string)
    ensures Split(s, '/')[0] == [] <==> s == [] || s[0] == '/'
  {
  }

  /** Collecting the components of a path gives a path of the same components. */
  lemma ComponentsReadBack(text: string)
    ensures Components(Render(Components(text))) == Components(text)
  {
    ComponentsAre(text);
    var steps := Pieces(Split(text, '/'));
    hide *;
    if IsRooted(text) {
      RootedReadBack(steps);
    } else if StartsWithDot(text) {
      DottedReadBack(steps);
    } else {
      assert [] + steps == steps;
      StepsReadBack(steps);
    }
  }

  lemma RootedReadBack(steps: Path)
    requires Steps(steps)
    ensures Components(Render([RootDir] + steps)) == [RootDir] + steps
  {
    var text := Render([RootDir] + steps);
    RenderRooted(steps);
    RootedIsReadable(steps);
    NormalizedIsPlain(text);
    ComponentsAre(text);
    hide Render;
    hide Components;
    hide Normalized;
  }

  lemma StepsReadBack(steps: Path)
    requires Steps(steps)
    ensures Components(Render(steps)) == steps
  {
    var text := Render(steps);
    SplitOfSteps(steps);
    ComponentsAre(text);
    NoDotInFront(steps);
    hide *;
    assert [] + steps == steps;
  }

  lemma NoDotInFront(steps: Path)
    requires Steps(steps)
    ensures !IsRooted(Render(steps)) && !StartsWithDot(Render(steps))
  {
    RenderSteps(steps);
    if steps == [] {
      RenderSnoc([], CurDir);
    } else {
      TextsHaveNoSlash(steps);
      PiecesOfTexts(steps);
      var texts := StepTexts(steps);
      SplitJoin(texts, '/');
      FirstPieceIsDot(Render(steps));
      assert texts[0] == ComponentText(steps[0]) && IsStep(steps[0]);
    }
  }

  lemma DottedReadBack(steps: Path)
    requires Steps(steps)
    ensures Components(Render([CurDir] + steps)) == [CurDir] + steps
  {
    RenderDotted(steps);
    SplitOfSteps(steps);
    var rest := Render(steps);
    hide Render;
    hide Steps;
    if steps == [] {
      DotAlone();
    } else {
      DotAndRest(rest);
    }
  }

  lemma DotAlone()
    ensures Components(".") == [CurDir]
  {
    SplitWithout(".", '/');
    hide Split;
    assert ["."][1..] == [];
    assert Pieces(["."]) == Piece(".") + Pieces([]);
  }

  lemma DotAndRest(rest: string)
    ensures Components("./" + rest) == [CurDir] + Pieces(Split(rest, '/'))
  {
    SplitAtFirst(".", rest, '/');
    assert "." + ['/'] + rest == "./" + rest;
    PiecesCons(".", Split(rest, '/'));
    hide Split;
    hide Pieces;
    assert ("./" + rest)[0] == '.';
    assert [] + Pieces(Split(rest, '/')) == Pieces(Split(rest, '/'));
  }

  lemma {:induction false} RenderDotted(steps: Path)
    requires Steps(steps)
    ensures Render([CurDir] + steps) == if steps == [] then "." else "./" + Render(steps)
  {
    if steps == [] {
      RenderSnoc([], CurDir);
      assert [CurDir] + steps == [] + [CurDir];
    } else {
      InitAndLast(steps);
      RenderDotted(steps[..|steps| - 1]);
      RenderDottedStep(steps[..|steps| - 1], steps[|steps| - 1]);
      hide *;
    }
  }

  lemma RenderDottedStep(before: Path, c: Component)
    requires Steps(before) && IsStep(c)
    requires Render([CurDir] + before) == if before == [] then "." else "./" + Render(before)
    ensures Render([CurDir] + (before + [c])) == "./" + Render(before + [c])
  {
    RenderSteps(before);
    RenderSnoc(before, c);
    RenderSnoc([CurDir] + before, c);
    Associative([CurDir], before, [c]);
    PushBehind("./", Render(before), c);
    hide Render;
    if before == [] {
      assert Push(".", c) == "./" + ComponentText(c);
    }
  }
}
