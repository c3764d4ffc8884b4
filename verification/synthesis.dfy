/**
 * The sentence-construction exercise: each problem offers a bank of tiles
 * (clauses, connectors, punctuation). A tile dragged from the bank to the
 * sentence is appended to it; one dragged from the sentence back to the bank
 * is appended to the bank. Check Answer compares the ids of the built
 * sentence, in order, with the problem's correct order and shows the
 * explanation; it is disabled while the sentence is empty. Next Problem is
 * offered only after a correct check and cycles through the problems; a
 * change of problem restores the problem's tiles to the bank.
 *
 * `Workbench` is the component's state as a value; the class `Synthesis`
 * holds the same state in fields.
 */
module Synthesis {
  import opened Types
  import opened Pools
  import Problems
  import Catalog

  /** The list a dragged tile was rendered in, as the drag payload labels it. */
  datatype TileSource = Bank | Built

  datatype Workbench = Workbench(
    problemIndex: nat,
    tileBank: seq<SynthesisTile>,
    builtSentence: seq<SynthesisTile>,
    feedback: Feedback,
    showExplanation: bool)

  /**
   * The state the `[currentProblem]` effect (and the mount) leaves: every
   * tile of the problem in the bank, in the catalog's order, an empty
   * sentence, neutral feedback and no explanation.
   */
  function Fresh(problems: seq<SynthesisProblem>, index: nat): (w: Workbench)
    requires index < |problems|
    ensures w.problemIndex == index && w.tileBank == problems[index].tiles
    ensures w.builtSentence == [] && w.feedback == Neutral && !w.showExplanation
  {
    Workbench(index, problems[index].tiles, [], Neutral, false)
  }

  /**
   * `onDropOnBuild`: a tile from the bank is appended to the sentence and
   * filtered out of the bank by id, and any verdict is cleared; a tile that
   * comes from the sentence itself is ignored.
   */
  function DropOnBuild(w: Workbench, tile: SynthesisTile, source: TileSource): Workbench
  {
    if source == Bank then
      w.(builtSentence := w.builtSentence + [tile],
         tileBank := Without(w.tileBank, TileId, {tile.id}),
         feedback := Neutral,
         showExplanation := false)
    else w
  }

  /** `onDropOnBank`: the mirror image, for a tile that comes from the sentence. */
  function DropOnBank(w: Workbench, tile: SynthesisTile, source: TileSource): Workbench
  {
    if source == Built then
      w.(tileBank := w.tileBank + [tile],
         builtSentence := Without(w.builtSentence, TileId, {tile.id}),
         feedback := Neutral,
         showExplanation := false)
    else w
  }

  /** The verdict of Check Answer: the built ids, in order, are the problem's correct order. */
  function IsCorrect(problem: SynthesisProblem, built: seq<SynthesisTile>): bool
  {
    Keys(built, TileId) == problem.correctOrder
  }

  /** `checkAnswer`: the verdict is shown with the explanation; the tiles stay where they are. */
  function Checked(problems: seq<SynthesisProblem>, w: Workbench): Workbench
    requires w.problemIndex < |problems|
  {
    w.(feedback := FeedbackOf(IsCorrect(problems[w.problemIndex], w.builtSentence)),
       showExplanation := true)
  }

  /** The Check Answer button is enabled only while the sentence has a tile. */
  predicate CheckEnabled(w: Workbench)
  {
    w.builtSentence != []
  }

  /** The Next Problem button is rendered only while the feedback is correct. */
  predicate NextOffered(w: Workbench)
  {
    w.feedback == Feedback.Correct
  }

  /** `resetProblem`: the current problem starts over. */
  function Reset(problems: seq<SynthesisProblem>, w: Workbench): Workbench
    requires w.problemIndex < |problems|
  {
    Fresh(problems, w.problemIndex)
  }

  /**
   * `goToNextProblem`: the index moves on cyclically and, when the problem
   * changes, the effect starts it fresh. With a single problem the problem
   * stays the same, React runs no effect and nothing changes.
   */
  function NextProblem(problems: seq<SynthesisProblem>, w: Workbench): Workbench
    requires w.problemIndex < |problems|
  {
    var j := Problems.NextIndex(w.problemIndex, |problems|);
    if j == w.problemIndex then w else Fresh(problems, j)
  }

  /** Every problem's tiles have distinct ids, as the filters by id assume. */
  ghost predicate WellFormed(problems: seq<SynthesisProblem>)
  {
    forall p :: p in problems ==> NoDuplicates(Keys(p.tiles, TileId))
  }

  /**
   * The workbench invariant: the bank and the sentence together hold the
   * problem's tiles, each exactly once, and the explanation is on show
   * exactly when a verdict is.
   */
  ghost predicate Arranged(problems: seq<SynthesisProblem>, w: Workbench)
  {
    && w.problemIndex < |problems|
    && multiset(w.tileBank) + multiset(w.builtSentence) == multiset(problems[w.problemIndex].tiles)
    && (w.showExplanation <==> w.feedback != Neutral)
  }

  /** A fresh problem is arranged, and Next Problem is not offered on it. */
  lemma FreshArranged(problems: seq<SynthesisProblem>, index: nat)
    requires index < |problems|
    ensures Arranged(problems, Fresh(problems, index))
    ensures !NextOffered(Fresh(problems, index)) && !CheckEnabled(Fresh(problems, index))
  {
  }

  /**
   * Moves are gated by their source: a drop on the sentence does something
   * only for a tile from the bank, and a drop on the bank only for a tile
   * from the sentence.
   */
  lemma MovesGatedBySource(w: Workbench, tile: SynthesisTile)
    ensures DropOnBuild(w, tile, Built) == w
    ensures DropOnBank(w, tile, Bank) == w
    ensures DropOnBuild(w, tile, Bank).builtSentence == w.builtSentence + [tile]
    ensures DropOnBank(w, tile, Built).tileBank == w.tileBank + [tile]
  {
  }

  /**
   * Moving a tile from the bank keeps every tile of the problem exactly
   * once, takes out exactly the tile moved, keeps the order of the tiles
   * left in the bank, and clears any verdict.
   */
  lemma {:induction false} DropOnBuildArranged(problems: seq<SynthesisProblem>, w: Workbench, i: nat)
    requires WellFormed(problems) && Arranged(problems, w)
    requires i < |w.tileBank|
    ensures var r := DropOnBuild(w, w.tileBank[i], Bank);
            && Arranged(problems, r)
            && r.tileBank == w.tileBank[..i] + w.tileBank[i + 1..]
            && r.builtSentence == w.builtSentence + [w.tileBank[i]]
            && r.problemIndex == w.problemIndex
            && r.feedback == Neutral && !NextOffered(r)
  {
    var tiles := problems[w.problemIndex].tiles;
    assert problems[w.problemIndex] in problems;
    DistinctPart(w.tileBank, w.builtSentence, TileId, tiles);
    RemoveAt(w.tileBank, i, TileId);
    MoveElement(w.tileBank, w.builtSentence, w.tileBank[i], TileId, tiles);
  }

  /** Moving a tile back from the sentence: the mirror image. */
  lemma {:induction false} DropOnBankArranged(problems: seq<SynthesisProblem>, w: Workbench, i: nat)
    requires WellFormed(problems) && Arranged(problems, w)
    requires i < |w.builtSentence|
    ensures var r := DropOnBank(w, w.builtSentence[i], Built);
            && Arranged(problems, r)
            && r.builtSentence == w.builtSentence[..i] + w.builtSentence[i + 1..]
            && r.tileBank == w.tileBank + [w.builtSentence[i]]
            && r.problemIndex == w.problemIndex
            && r.feedback == Neutral && !NextOffered(r)
  {
    var tiles := problems[w.problemIndex].tiles;
    assert problems[w.problemIndex] in problems;
    assert multiset(w.builtSentence) + multiset(w.tileBank) == multiset(tiles);
    DistinctPart(w.builtSentence, w.tileBank, TileId, tiles);
    RemoveAt(w.builtSentence, i, TileId);
    MoveElement(w.builtSentence, w.tileBank, w.builtSentence[i], TileId, tiles);
  }

  /**
   * Check Answer reports correct exactly when the built ids are the correct
   * order, shows the explanation either way, keeps the tiles where they
   * are, and Next Problem is offered exactly after a correct check.
   */
  lemma CheckIsExact(problems: seq<SynthesisProblem>, w: Workbench)
    requires Arranged(problems, w)
    ensures var r := Checked(problems, w);
            && (r.feedback == Feedback.Correct <==> Keys(w.builtSentence, TileId) == problems[w.problemIndex].correctOrder)
            && (r.feedback == Feedback.Incorrect <==> Keys(w.builtSentence, TileId) != problems[w.problemIndex].correctOrder)
            && (NextOffered(r) <==> IsCorrect(problems[w.problemIndex], w.builtSentence))
            && r.showExplanation
            && r.tileBank == w.tileBank && r.builtSentence == w.builtSentence && r.problemIndex == w.problemIndex
            && Arranged(problems, r)
  {
  }

  /**
   * On a problem with a non-empty answer an empty sentence is never correct,
   * so a check on it would report a mistake the disabled button prevents.
   */
  lemma EmptyNeverCorrect(problem: SynthesisProblem)
    requires problem.correctOrder != []
    ensures !IsCorrect(problem, [])
  {
  }

  /** Reset starts the current problem over, and resetting twice is resetting once. */
  lemma ResetIdempotent(problems: seq<SynthesisProblem>, w: Workbench)
    requires w.problemIndex < |problems|
    ensures var r := Reset(problems, w);
            && r.problemIndex == w.problemIndex && r.tileBank == problems[w.problemIndex].tiles
            && r.builtSentence == [] && r.feedback == Neutral && !r.showExplanation
    ensures Reset(problems, Reset(problems, w)) == Reset(problems, w)
    ensures Arranged(problems, Reset(problems, w)) && !NextOffered(Reset(problems, w))
  {
  }

  /**
   * With two problems or more Next Problem moves on cyclically to another
   * problem and reinitialises it.
   */
  lemma NextReinitialises(problems: seq<SynthesisProblem>, w: Workbench)
    requires 2 <= |problems| && w.problemIndex < |problems|
    ensures NextProblem(problems, w).problemIndex == (w.problemIndex + 1) % |problems|
    ensures NextProblem(problems, w).problemIndex != w.problemIndex
    ensures NextProblem(problems, w) == Fresh(problems, (w.problemIndex + 1) % |problems|)
    ensures Arranged(problems, NextProblem(problems, w))
  {
  }

  /** With a single problem Next Problem leaves everything as it is. */
  lemma NextOnSingleProblem(problems: seq<SynthesisProblem>, w: Workbench)
    requires |problems| == 1 && w.problemIndex < 1
    ensures NextProblem(problems, w) == w
  {
  }

  /** Dragging the first tile of the bank, whose id no other bank tile has, takes exactly it. */
  lemma TakeFirst(w: Workbench, x: SynthesisTile, rest: seq<SynthesisTile>)
    requires w.tileBank == [x] + rest
    requires forall y :: y in rest ==> y.id != x.id
    ensures DropOnBuild(w, x, Bank).tileBank == rest
    ensures DropOnBuild(w, x, Bank).builtSentence == w.builtSentence + [x]
  {
    WithoutSplit([], x, rest, TileId);
    assert [] + [x] + rest == [x] + rest;
  }

  /**
   * Three tiles with distinct ids, in a problem whose answer is their ids in
   * order: building them in order empties the bank and is judged correct,
   * and swapping the first two is judged incorrect.
   */
  lemma BuildThree(problems: seq<SynthesisProblem>, index: nat, a: SynthesisTile, b: SynthesisTile, c: SynthesisTile)
    requires index < |problems|
    requires problems[index].tiles == [a, b, c]
    requires problems[index].correctOrder == [a.id, b.id, c.id]
    requires a.id != b.id && a.id != c.id && b.id != c.id
    ensures var w := DropOnBuild(DropOnBuild(DropOnBuild(Fresh(problems, index), a, Bank), b, Bank), c, Bank);
            && w.builtSentence == [a, b, c] && w.tileBank == []
            && Checked(problems, w).feedback == Feedback.Correct
    ensures !IsCorrect(problems[index], [b, a, c])
  {
    var w0 := Fresh(problems, index);
    assert w0.tileBank == [a] + [b, c];
    TakeFirst(w0, a, [b, c]);
    var w1 := DropOnBuild(w0, a, Bank);
    assert w1.tileBank == [b] + [c];
    TakeFirst(w1, b, [c]);
    var w2 := DropOnBuild(w1, b, Bank);
    assert w2.tileBank == [c] + [];
    TakeFirst(w2, c, []);
    var w3 := DropOnBuild(w2, c, Bank);
    assert w3.builtSentence == [a, b, c];
    assert Keys([a, b, c], TileId) == [a.id, b.id, c.id];
    assert Keys([b, a, c], TileId)[0] == b.id;
  }

  /**
   * The first catalog problem: 'The company launched a new product', ', so',
   * 'its stock price increased significantly.' built in that order is
   * correct; with the first two swapped it is not.
   */
  lemma FirstProblemAnswer()
    ensures var problems := Catalog.SynthesisProblems;
            var w := DropOnBuild(DropOnBuild(DropOnBuild(Fresh(problems, 0), Catalog.T1, Bank), Catalog.T2, Bank), Catalog.T3, Bank);
            && Checked(problems, w).feedback == Feedback.Correct
            && w.tileBank == []
    ensures !IsCorrect(Catalog.SynthesisProblems[0], [Catalog.T2, Catalog.T1, Catalog.T3])
  {
    var p := Catalog.SynthesisProblems[0];
    assert p.tiles == [Catalog.T1, Catalog.T2, Catalog.T3];
    assert p.correctOrder == [Catalog.T1.id, Catalog.T2.id, Catalog.T3.id];
    BuildThree(Catalog.SynthesisProblems, 0, Catalog.T1, Catalog.T2, Catalog.T3);
  }

  /** The catalog's tile ids are distinct within each problem. */
  lemma CatalogWellFormed()
    ensures WellFormed(Catalog.SynthesisProblems)
  {
    var ks := Keys([Catalog.T1, Catalog.T2, Catalog.T3], TileId);
    assert ks == ["s1t1", "s1t2", "s1t3"];
    assert Catalog.SynthesisProblems[0].tiles == [Catalog.T1, Catalog.T2, Catalog.T3];
  }

  class Synthesis {
    const problems: seq<SynthesisProblem>
    var problemIndex: nat
    var tileBank: seq<SynthesisTile>
    var builtSentence: seq<SynthesisTile>
    var feedback: Feedback
    var showExplanation: bool
    ghost var sounds: seq<Sound>

    function State(): Workbench
      reads this
    {
      Workbench(problemIndex, tileBank, builtSentence, feedback, showExplanation)
    }

    /** Mounting the component: the first problem, fresh. */
    constructor (problems: seq<SynthesisProblem>)
      requires problems != []
      ensures this.problems == problems
      ensures State() == Fresh(problems, 0)
      ensures sounds == []
    {
      this.problems := problems;
      problemIndex := 0;
      tileBank := problems[0].tiles;
      builtSentence := [];
      feedback := Neutral;
      showExplanation := false;
      sounds := [];
    }

    /** `onDropOnBuild`; the drop cue plays only for a move that happens. */
    method OnDropOnBuild(tile: SynthesisTile, source: TileSource)
      modifies this
      ensures State() == DropOnBuild(old(State()), tile, source)
      ensures sounds == if source == Bank then old(sounds) + [Sound.Drop] else old(sounds)
    {
      if source == Bank {
        sounds := sounds + [Sound.Drop];
        builtSentence := builtSentence + [tile];
        tileBank := Without(tileBank, TileId, {tile.id});
        feedback := Neutral;
        showExplanation := false;
      }
    }

    /** `onDropOnBank`; the drop cue plays only for a move that happens. */
    method OnDropOnBank(tile: SynthesisTile, source: TileSource)
      modifies this
      ensures State() == DropOnBank(old(State()), tile, source)
      ensures sounds == if source == Built then old(sounds) + [Sound.Drop] else old(sounds)
    {
      if source == Built {
        sounds := sounds + [Sound.Drop];
        tileBank := tileBank + [tile];
        builtSentence := Without(builtSentence, TileId, {tile.id});
        feedback := Neutral;
        showExplanation := false;
      }
    }

    /** `checkAnswer`, followed by the verdict cue. */
    method CheckAnswer()
      requires problemIndex < |problems|
      modifies this
      ensures State() == Checked(problems, old(State()))
      ensures sounds == old(sounds) + [CueOf(IsCorrect(problems[problemIndex], builtSentence))]
    {
      var builtOrder := Keys(builtSentence, TileId);
      var isCorrect := builtOrder == problems[problemIndex].correctOrder;
      feedback := if isCorrect then Feedback.Correct else Feedback.Incorrect;
      showExplanation := true;
      sounds := sounds + [CueOf(isCorrect)];
    }

    /** A press on Check Answer: a disabled button does nothing. */
    method PressCheckAnswer() returns (ran: bool)
      requires problemIndex < |problems|
      modifies this
      ensures ran == CheckEnabled(old(State()))
      ensures State() == if ran then Checked(problems, old(State())) else old(State())
    {
      ran := builtSentence != [];
      if ran {
        CheckAnswer();
      }
    }

    /** `resetProblem`. */
    method ResetProblem()
      requires problemIndex < |problems|
      modifies this
      ensures State() == Reset(problems, old(State()))
      ensures sounds == old(sounds)
    {
      tileBank := problems[problemIndex].tiles;
      builtSentence := [];
      feedback := Neutral;
      showExplanation := false;
    }

    /** `goToNextProblem`, followed by the `[currentProblem]` effect when the problem changed. */
    method GoToNextProblem()
      requires problemIndex < |problems|
      modifies this
      ensures State() == NextProblem(problems, old(State()))
      ensures problemIndex < |problems|
      ensures sounds == old(sounds)
    {
      var next := (problemIndex + 1) % |problems|;
      if next != problemIndex {
        problemIndex := next;
        tileBank := problems[next].tiles;
        builtSentence := [];
        feedback := Neutral;
        showExplanation := false;
      }
    }

    /** A press on Next Problem: the button exists only after a correct check. */
    method PressNextProblem() returns (ran: bool)
      requires problemIndex < |problems|
      modifies this
      ensures ran == NextOffered(old(State()))
      ensures State() == if ran then NextProblem(problems, old(State())) else old(State())
      ensures problemIndex < |problems|
    {
      ran := feedback == Feedback.Correct;
      if ran {
        GoToNextProblem();
      }
    }
  }

  /**
   * The first catalog problem on the component: Check is disabled at first;
   * the three tiles dragged in order empty the bank; Check reports correct
   * and Next Problem becomes available.
   */
  method FirstProblemScenario() returns (firstPress: bool, verdict: Feedback, bankLeft: nat, next: bool)
    ensures !firstPress && verdict == Feedback.Correct && bankLeft == 0 && next
  {
    FirstProblemAnswer();
    var m := new Synthesis(Catalog.SynthesisProblems);
    firstPress := m.PressCheckAnswer();
    m.OnDropOnBuild(Catalog.T1, Bank);
    m.OnDropOnBuild(Catalog.T2, Bank);
    m.OnDropOnBuild(Catalog.T3, Bank);
    var ran := m.PressCheckAnswer();
    verdict := m.feedback;
    bankLeft := |m.tileBank|;
    next := NextOffered(m.State());
  }
}
