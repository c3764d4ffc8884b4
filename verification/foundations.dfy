/**
 * The concept-to-definition matching exercise: one single-slot drop zone per
 * definition, a shuffled toolbox of concepts, per-drop judgement against the
 * concept's `matchId`, and a delayed revert that clears an incorrect match.
 *
 * `Board` is the component's state as a value: the two zone records, the
 * shuffled toolbox and the zones of the revert timers still pending. The
 * class `Foundations` holds the same state in fields and each handler is
 * proved to perform the matching transition on `Board`.
 */
module Foundations {
  import opened Types
  import opened Pools
  import Catalog

  /** `Math.floor(r * (i + 1))` for a draw `r` of `Math.random()`: always a valid index at most `i`. */
  function SwapIndex(r: real, i: nat): (j: int)
    requires 0.0 <= r < 1.0
    ensures 0 <= j <= i
  {
    var n := (i + 1) as real;
    assert 0.0 <= r * n < n by {
      assert (1.0 - r) * n > 0.0;
    }
    (r * n).Floor
  }

  /**
   * The Fisher-Yates shuffle of the toolbox. The items are copied into a
   * fresh array, which is shuffled in place, so the caller's list is left as
   * it was; `draws[i]` is the value `Math.random()` returns in the round for
   * index `i`.
   */
  method Shuffle<T>(items: seq<T>, draws: seq<real>) returns (r: seq<T>)
    requires |draws| == |items|
    requires forall k :: 0 <= k < |draws| ==> 0.0 <= draws[k] < 1.0
    ensures |r| == |items|
    ensures multiset(r) == multiset(items)
  {
    var a := new T[|items|](k requires 0 <= k < |items| => items[k]);
    assert a[..] == items;
    var i := a.Length - 1;
    while i > 0
      invariant i < a.Length
      invariant multiset(a[..]) == multiset(items)
    {
      var j := SwapIndex(draws[i], i);
      a[i], a[j] := a[j], a[i];
      i := i - 1;
    }
    r := a[..];
  }

  datatype Board = Board(
    matches: map<string, Option<Concept>>,
    feedback: map<string, Feedback>,
    shuffledConcepts: seq<Concept>,
    /** The zones of the revert timers scheduled and not yet fired, earliest first. */
    reverts: seq<string>)

  function DefinitionIds(definitions: seq<Definition>): set<string>
  {
    set d | d in definitions :: d.id
  }

  /**
   * `initializeModule`: a null match and neutral feedback for every
   * definition, and the given shuffle as the toolbox. Timers already
   * scheduled are not part of what it resets.
   */
  function Initialized(definitions: seq<Definition>, shuffled: seq<Concept>, reverts: seq<string>): (b: Board)
    ensures b.matches.Keys == DefinitionIds(definitions) && b.feedback.Keys == DefinitionIds(definitions)
    ensures forall d :: d in b.matches ==> b.matches[d].None? && b.feedback[d] == Feedback.Neutral
  {
    var ids := DefinitionIds(definitions);
    Board(map d | d in ids :: None, map d | d in ids :: Feedback.Neutral, shuffled, reverts)
  }

  /** `handleDropConcept`: store the concept, judge it, and schedule a revert when it is wrong. */
  function Place(b: Board, definitionId: string, concept: Concept): Board
  {
    var isCorrect := concept.matchId == definitionId;
    b.(matches := b.matches[definitionId := Some(concept)],
       feedback := b.feedback[definitionId := FeedbackOf(isCorrect)],
       reverts := if isCorrect then b.reverts else b.reverts + [definitionId])
  }

  /** The zone's drop guard: a drop on a zone that holds a concept changes nothing. */
  function Occupied(b: Board, definitionId: string): bool
  {
    definitionId in b.matches && b.matches[definitionId].Some?
  }

  /** The earliest revert timer fires: its zone goes back to empty and neutral. */
  function Fire(b: Board): Board
    requires b.reverts != []
  {
    var d := b.reverts[0];
    b.(matches := b.matches[d := None], feedback := b.feedback[d := Feedback.Neutral], reverts := b.reverts[1..])
  }

  /** The ids of the concepts held by some zone. */
  function MatchedConceptIds(matches: map<string, Option<Concept>>): (r: set<string>)
    ensures forall d :: d in matches && matches[d].Some? ==> matches[d].value.id in r
    ensures forall k :: k in r ==> exists d :: d in matches && matches[d].Some? && matches[d].value.id == k
  {
    set d | d in matches && matches[d].Some? :: matches[d].value.id
  }

  /**
   * The toolbox on screen: the shuffled concepts that no zone holds, in
   * shuffled order, each as often as the shuffle has it.
   */
  function ConceptsToDisplay(b: Board): (r: seq<Concept>)
    ensures forall c :: c in r <==> c in b.shuffledConcepts && c.id !in MatchedConceptIds(b.matches)
    ensures |r| <= |b.shuffledConcepts| && InOrder(r, b.shuffledConcepts)
    ensures NoDuplicates(b.shuffledConcepts) ==> NoDuplicates(r)
  {
    WithoutKeepsOrder(b.shuffledConcepts, ConceptId, MatchedConceptIds(b.matches));
    Without(b.shuffledConcepts, ConceptId, MatchedConceptIds(b.matches))
  }

  /** The zones whose feedback is 'correct': the entries `correctMatches` counts. */
  function CorrectZones(feedback: map<string, Feedback>): (r: set<string>)
    ensures r <= feedback.Keys
  {
    set d | d in feedback && feedback[d] == Feedback.Correct
  }

  /** A subset has at most as many elements. */
  lemma {:induction false} SubsetCard<T>(a: set<T>, b: set<T>)
    requires a <= b
    ensures |a| <= |b|
  {
    if a != {} {
      var x :| x in a;
      SubsetCard(a - {x}, b - {x});
    }
  }

  /**
   * The progress counter: the number of zones marked 'correct'. It is never
   * more than the number of zones, and zero exactly when no zone is.
   */
  function CorrectMatches(b: Board): (n: nat)
    ensures n <= |b.feedback.Keys|
    ensures n == 0 <==> forall d :: d in b.feedback ==> b.feedback[d] != Feedback.Correct
  {
    var zones := CorrectZones(b.feedback);
    SubsetCard(zones, b.feedback.Keys);
    assert forall d :: d in b.feedback && b.feedback[d] == Feedback.Correct ==> d in zones;
    |zones|
  }

  /**
   * The zone records agree with the catalog: both have a key per definition
   * zone, a zone is empty exactly when its feedback is neutral, a held
   * concept comes from the catalog and is marked correct exactly when its
   * `matchId` names the zone; the toolbox is a permutation of the concepts
   * and every pending timer names a zone.
   */
  ghost predicate Consistent(ids: set<string>, concepts: seq<Concept>, b: Board)
  {
    && b.matches.Keys == ids
    && b.feedback.Keys == ids
    && (forall d :: d in b.matches ==> (b.matches[d].None? <==> b.feedback[d] == Feedback.Neutral))
    && (forall d :: d in b.matches && b.matches[d].Some? ==>
          b.matches[d].value in concepts && (b.feedback[d] == Feedback.Correct <==> b.matches[d].value.matchId == d))
    && multiset(b.shuffledConcepts) == multiset(concepts)
    && (forall k :: 0 <= k < |b.reverts| ==> b.reverts[k] in ids)
  }

  /** No concept is held by two zones. */
  ghost predicate HeldOnce(matches: map<string, Option<Concept>>)
  {
    forall d1, d2 :: d1 in matches && d2 in matches && d1 != d2 && matches[d1].Some? && matches[d2].Some? ==>
      matches[d1].value.id != matches[d2].value.id
  }

  /**
   * Every pending revert belongs to the incorrect match it was scheduled for:
   * the pending zones are distinct, each shows 'incorrect', and each zone
   * showing 'incorrect' has its revert pending.
   */
  ghost predicate LiveReverts(b: Board)
  {
    && NoDuplicates(b.reverts)
    && (forall k :: 0 <= k < |b.reverts| ==> b.reverts[k] in b.feedback && b.feedback[b.reverts[k]] == Feedback.Incorrect)
    && (forall d :: d in b.feedback && b.feedback[d] == Feedback.Incorrect ==> d in b.reverts)
  }

  /**
   * A freshly initialised board is consistent, holds nothing, shows the
   * whole shuffle as its toolbox and has no progress; with no timer pending
   * its reverts are live.
   */
  lemma InitializedConsistent(definitions: seq<Definition>, concepts: seq<Concept>, shuffled: seq<Concept>, reverts: seq<string>)
    requires multiset(shuffled) == multiset(concepts)
    requires forall k :: 0 <= k < |reverts| ==> reverts[k] in DefinitionIds(definitions)
    ensures Consistent(DefinitionIds(definitions), concepts, Initialized(definitions, shuffled, reverts))
    ensures HeldOnce(Initialized(definitions, shuffled, reverts).matches)
    ensures ConceptsToDisplay(Initialized(definitions, shuffled, reverts)) == shuffled
    ensures CorrectMatches(Initialized(definitions, shuffled, reverts)) == 0
    ensures reverts == [] ==> LiveReverts(Initialized(definitions, shuffled, reverts))
  {
    var b := Initialized(definitions, shuffled, reverts);
    assert MatchedConceptIds(b.matches) == {};
    WithoutAbsent(shuffled, ConceptId, {});
  }

  /**
   * Placing a concept from the toolbox on an empty zone keeps the board
   * consistent and never puts a concept in a second zone.
   */
  lemma PlaceConsistent(ids: set<string>, concepts: seq<Concept>, b: Board, d: string, c: Concept)
    requires Consistent(ids, concepts, b) && HeldOnce(b.matches)
    requires d in b.matches && !Occupied(b, d)
    requires c in ConceptsToDisplay(b)
    ensures Consistent(ids, concepts, Place(b, d, c))
    ensures HeldOnce(Place(b, d, c).matches)
  {
    assert c in multiset(b.shuffledConcepts);
    forall e | e in b.matches && b.matches[e].Some?
      ensures b.matches[e].value.id != c.id
    {
      assert b.matches[e].value.id in MatchedConceptIds(b.matches);
    }
  }

  /**
   * The dropped concept, and only it, leaves the toolbox: the new toolbox is
   * the previous one with the dropped id filtered out, the rest in order.
   */
  lemma PlaceTakesFromToolbox(b: Board, d: string, c: Concept)
    requires !Occupied(b, d)
    ensures ConceptsToDisplay(Place(b, d, c)) == Without(ConceptsToDisplay(b), ConceptId, {c.id})
    ensures forall x :: x in ConceptsToDisplay(Place(b, d, c)) <==> x in ConceptsToDisplay(b) && x.id != c.id
  {
    var before, after := MatchedConceptIds(b.matches), MatchedConceptIds(Place(b, d, c).matches);
    assert after == before + {c.id} by {
      assert Place(b, d, c).matches[d] == Some(c);
      forall k | k in after ensures k in before + {c.id} {
        var e :| e in Place(b, d, c).matches && Place(b, d, c).matches[e].Some? && Place(b, d, c).matches[e].value.id == k;
        if e != d {
          assert b.matches[e].Some?;
        }
      }
      forall k | k in before ensures k in after {
        var e :| e in b.matches && b.matches[e].Some? && b.matches[e].value.id == k;
        assert e != d;
        assert Place(b, d, c).matches[e] == b.matches[e];
      }
    }
    WithoutTwice(b.shuffledConcepts, ConceptId, before, {c.id});
  }

  /** Setting one zone's feedback moves the count of correct zones by what that zone gains or loses. */
  lemma CorrectZonesUpdate(feedback: map<string, Feedback>, d: string, v: Feedback)
    ensures |CorrectZones(feedback[d := v])| + (if d in feedback && feedback[d] == Feedback.Correct then 1 else 0)
         == |CorrectZones(feedback)| + (if v == Feedback.Correct then 1 else 0)
  {
    var rest := CorrectZones(feedback) - {d};
    if v == Feedback.Correct {
      assert CorrectZones(feedback[d := v]) == rest + {d};
    } else {
      assert CorrectZones(feedback[d := v]) == rest;
    }
    if d in feedback && feedback[d] == Feedback.Correct {
      assert CorrectZones(feedback) == rest + {d};
    } else {
      assert CorrectZones(feedback) == rest;
    }
  }

  /** A drop on a zone that is not yet correct adds one to the progress exactly when the match is right. */
  lemma PlaceProgress(b: Board, d: string, c: Concept)
    requires d in b.feedback && b.feedback[d] != Feedback.Correct
    ensures CorrectMatches(Place(b, d, c)) == CorrectMatches(b) + (if c.matchId == d then 1 else 0)
  {
    CorrectZonesUpdate(b.feedback, d, FeedbackOf(c.matchId == d));
  }

  /**
   * A drop touches its own zone only: that zone holds the concept and is
   * 'correct' exactly when the concept belongs there; every other zone and
   * the toolbox order are as they were.
   */
  lemma PlaceOneZone(b: Board, d: string, c: Concept)
    ensures Place(b, d, c).matches[d] == Some(c)
    ensures Place(b, d, c).feedback[d] == Feedback.Correct <==> c.matchId == d
    ensures forall e :: e in b.matches && e != d ==> Place(b, d, c).matches[e] == b.matches[e]
    ensures forall e :: e in b.feedback && e != d ==> Place(b, d, c).feedback[e] == b.feedback[e]
    ensures Place(b, d, c).shuffledConcepts == b.shuffledConcepts
  {
  }

  /** A firing revert empties its own zone only and sets it back to 'neutral'. */
  lemma FireOneZone(b: Board)
    requires b.reverts != []
    ensures Fire(b).matches[b.reverts[0]].None? && Fire(b).feedback[b.reverts[0]] == Feedback.Neutral
    ensures forall e :: e in b.matches && e != b.reverts[0] ==> Fire(b).matches[e] == b.matches[e]
    ensures forall e :: e in b.feedback && e != b.reverts[0] ==> Fire(b).feedback[e] == b.feedback[e]
  {
  }

  /**
   * A correct match schedules no revert, a wrong one schedules its own; on an
   * empty zone either keeps the pending reverts live.
   */
  lemma PlaceKeepsRevertsLive(b: Board, d: string, c: Concept)
    requires LiveReverts(b)
    requires d in b.feedback && b.feedback[d] == Feedback.Neutral
    ensures LiveReverts(Place(b, d, c))
    ensures (Place(b, d, c).reverts == b.reverts) <==> c.matchId == d
  {
    assert d !in b.reverts;
    if c.matchId != d {
      assert Place(b, d, c).reverts[|b.reverts|] == d;
    }
  }

  /** Firing a revert empties its zone and keeps the board consistent. */
  lemma FireConsistent(ids: set<string>, concepts: seq<Concept>, b: Board)
    requires Consistent(ids, concepts, b) && HeldOnce(b.matches)
    requires b.reverts != []
    ensures Consistent(ids, concepts, Fire(b)) && HeldOnce(Fire(b).matches)
    ensures !Occupied(Fire(b), b.reverts[0])
  {
    assert b.reverts[0] in ids;
  }

  /**
   * While the pending reverts are live, the earliest one clears an incorrect
   * match: it leaves the progress as it was, and the rest stay live.
   */
  lemma {:induction false} FireKeepsRevertsLive(b: Board)
    requires LiveReverts(b) && b.reverts != []
    ensures b.feedback[b.reverts[0]] == Feedback.Incorrect
    ensures LiveReverts(Fire(b))
    ensures CorrectMatches(Fire(b)) == CorrectMatches(b)
  {
    var d := b.reverts[0];
    var rest := b.reverts[1..];
    forall k | 0 <= k < |rest| ensures rest[k] != d {
      assert b.reverts[0] != b.reverts[k + 1];
    }
    forall e | e in b.feedback && e != d && b.feedback[e] == Feedback.Incorrect ensures e in rest {
      var k :| 0 <= k < |b.reverts| && b.reverts[k] == e;
      assert rest[k - 1] == e;
    }
    CorrectZonesUpdate(b.feedback, d, Feedback.Neutral);
  }

  /** A revert that fires on a zone marked 'correct' takes one off the progress. */
  lemma FireOnCorrectLosesProgress(b: Board)
    requires b.reverts != [] && b.reverts[0] in b.feedback && b.feedback[b.reverts[0]] == Feedback.Correct
    ensures CorrectMatches(Fire(b)) + 1 == CorrectMatches(b)
  {
    CorrectZonesUpdate(b.feedback, b.reverts[0], Feedback.Neutral);
  }

  /**
   * Reset Module as written: a wrong drop followed by a reset leaves a
   * pending revert for a zone that is now neutral, so the reverts are no
   * longer live.
   */
  lemma ResetLeavesStaleRevert(definitions: seq<Definition>, shuffled: seq<Concept>, b: Board)
    requires b.reverts != []
    requires forall k :: 0 <= k < |b.reverts| ==> b.reverts[k] in DefinitionIds(definitions)
    ensures !LiveReverts(Initialized(definitions, shuffled, b.reverts))
  {
    assert b.reverts[0] in DefinitionIds(definitions);
  }

  class Foundations {
    const definitions: seq<Definition>
    const concepts: seq<Concept>
    /** The concept held by each definition zone, if any. */
    var matches: map<string, Option<Concept>>
    var feedback: map<string, Feedback>
    var shuffledConcepts: seq<Concept>
    /** The zones of the pending revert timers, earliest first. */
    var reverts: seq<string>
    ghost var sounds: seq<Sound>

    function State(): Board
      reads this
    {
      Board(matches, feedback, shuffledConcepts, reverts)
    }

    /** Mounting the component runs `initializeModule` once. */
    constructor (definitions: seq<Definition>, concepts: seq<Concept>, draws: seq<real>)
      requires |draws| == |concepts|
      requires forall k :: 0 <= k < |draws| ==> 0.0 <= draws[k] < 1.0
      ensures this.definitions == definitions && this.concepts == concepts
      ensures State() == Initialized(definitions, shuffledConcepts, [])
      ensures multiset(shuffledConcepts) == multiset(concepts)
      ensures sounds == []
    {
      this.definitions := definitions;
      this.concepts := concepts;
      reverts := [];
      sounds := [];
      new;
      InitializeModule(draws);
    }

    /**
     * `initializeModule`, also Reset Module: every zone empty and neutral,
     * the toolbox a fresh shuffle of all concepts. Pending reverts are not
     * cancelled.
     */
    method InitializeModule(draws: seq<real>)
      requires |draws| == |concepts|
      requires forall k :: 0 <= k < |draws| ==> 0.0 <= draws[k] < 1.0
      modifies this
      ensures State() == Initialized(definitions, shuffledConcepts, old(reverts))
      ensures multiset(shuffledConcepts) == multiset(concepts)
      ensures sounds == old(sounds)
    {
      var ids := DefinitionIds(definitions);
      matches := map d | d in ids :: None;
      feedback := map d | d in ids :: Feedback.Neutral;
      shuffledConcepts := Shuffle(concepts, draws);
    }

    /** `handleDropConcept`: the drop cue, the new match and its judgement, the verdict cue. */
    method HandleDropConcept(definitionId: string, concept: Concept)
      modifies this
      ensures State() == Place(old(State()), definitionId, concept)
      ensures sounds == old(sounds) + [Sound.Drop, CueOf(concept.matchId == definitionId)]
    {
      var isCorrect := concept.matchId == definitionId;
      sounds := sounds + [Sound.Drop];
      matches := matches[definitionId := Some(concept)];
      feedback := feedback[definitionId := if isCorrect then Feedback.Correct else Feedback.Incorrect];
      if isCorrect {
        sounds := sounds + [Sound.Correct];
      } else {
        sounds := sounds + [Sound.Incorrect];
        reverts := reverts + [definitionId];
      }
    }

    /** A drop on a definition zone: ignored when the zone holds a concept, handled otherwise. */
    method DropOnZone(definitionId: string, concept: Concept) returns (accepted: bool)
      modifies this
      ensures accepted == !Occupied(old(State()), definitionId)
      ensures State() == if accepted then Place(old(State()), definitionId, concept) else old(State())
      ensures sounds == if accepted then old(sounds) + [Sound.Drop, CueOf(concept.matchId == definitionId)] else old(sounds)
    {
      if definitionId in matches && matches[definitionId].Some? {
        return false;
      }
      HandleDropConcept(definitionId, concept);
      accepted := true;
    }

    /** The earliest pending revert timer fires. */
    method RevertFires()
      requires reverts != []
      modifies this
      ensures State() == Fire(old(State()))
      ensures sounds == old(sounds)
    {
      var definitionId := reverts[0];
      matches := matches[definitionId := None];
      feedback := feedback[definitionId := Feedback.Neutral];
      reverts := reverts[1..];
    }

    /** `clearTimeout` on every pending revert: the step a cancelling reset adds. */
    method CancelReverts()
      modifies this
      ensures State() == old(State()).(reverts := [])
      ensures sounds == old(sounds)
    {
      reverts := [];
    }

    /** Reset Module that first cancels the pending reverts. */
    method ResetModuleCancellingReverts(draws: seq<real>)
      requires |draws| == |concepts|
      requires forall k :: 0 <= k < |draws| ==> 0.0 <= draws[k] < 1.0
      modifies this
      ensures State() == Initialized(definitions, shuffledConcepts, [])
      ensures multiset(shuffledConcepts) == multiset(concepts)
      ensures sounds == old(sounds)
    {
      CancelReverts();
      InitializeModule(draws);
    }
  }

  /** Draws that make every swap of the shuffle exchange with the first position. */
  function ZeroDraws(n: nat): (r: seq<real>)
    ensures |r| == n && forall k :: 0 <= k < n ==> r[k] == 0.0
  {
    seq(n, k => 0.0)
  }

  /**
   * Progress over three drops on the catalog: c1 on d1 (correct), c2 on the
   * occupied d1 (rejected), c2 on d2 (correct) reads 1, then 1, then 2.
   */
  lemma ProgressOnCatalog(shuffled: seq<Concept>)
    ensures var b0 := Initialized(Catalog.Definitions, shuffled, []);
            var b1 := Place(b0, "d1", Catalog.Concepts[0]);
            && CorrectMatches(b0) == 0
            && CorrectMatches(b1) == 1
            && Occupied(b1, "d1") && !Occupied(b1, "d2")
            && CorrectMatches(Place(b1, "d2", Catalog.Concepts[1])) == 2
  {
    assert Catalog.Definitions[0].id == "d1" && Catalog.Definitions[1].id == "d2";
    assert Catalog.Concepts[0].matchId == "d1" && Catalog.Concepts[1].matchId == "d2";
    TwoRightDrops(Catalog.Definitions, shuffled, Catalog.Concepts[0], Catalog.Concepts[1]);
  }

  /**
   * On a fresh board, the right concepts dropped on the first two zones
   * bring the progress from 0 to 1 to 2.
   */
  lemma TwoRightDrops(definitions: seq<Definition>, shuffled: seq<Concept>, c1: Concept, c2: Concept)
    requires |definitions| >= 2 && c1.matchId != c2.matchId
    requires definitions[0].id == c1.matchId && definitions[1].id == c2.matchId
    ensures var b0 := Initialized(definitions, shuffled, []);
            var b1 := Place(b0, c1.matchId, c1);
            && CorrectMatches(b0) == 0
            && CorrectMatches(b1) == 1
            && Occupied(b1, c1.matchId) && !Occupied(b1, c2.matchId)
            && CorrectMatches(Place(b1, c2.matchId, c2)) == 2
  {
    var b0 := Initialized(definitions, shuffled, []);
    assert c1.matchId in b0.feedback && c2.matchId in b0.feedback;
    InitializedConsistent(definitions, shuffled, shuffled, []);
    PlaceProgress(b0, c1.matchId, c1);
    PlaceProgress(Place(b0, c1.matchId, c1), c2.matchId, c2);
  }

  /** The same three drops on the component. */
  method ProgressScenario() returns (first: nat, second: nat, third: nat, rejected: bool)
    ensures first == 1 && second == 1 && third == 2 && rejected
  {
    var m := new Foundations(Catalog.Definitions, Catalog.Concepts, ZeroDraws(6));
    ProgressOnCatalog(m.shuffledConcepts);
    var accepted := m.DropOnZone("d1", Catalog.Concepts[0]);
    first := CorrectMatches(m.State());
    accepted := m.DropOnZone("d1", Catalog.Concepts[1]);
    rejected := !accepted;
    second := CorrectMatches(m.State());
    accepted := m.DropOnZone("d2", Catalog.Concepts[1]);
    third := CorrectMatches(m.State());
  }

  /**
   * As written, Reset Module leaves a pending revert behind: a wrong concept
   * dropped on the first zone, reset, the right concept dropped on it; when
   * the first drop's timer fires it clears the correct match. On the
   * catalog, c2 then c1 on d1 meet the requirements (`CatalogFirstZone`).
   */
  method StaleRevertClearsCorrectMatch(definitions: seq<Definition>, concepts: seq<Concept>, draws: seq<real>, wrong: Concept, right: Concept)
    returns (before: Feedback, after: Feedback, held: bool)
    requires |definitions| >= 1
    requires right.matchId == definitions[0].id && wrong.matchId != definitions[0].id
    requires |draws| == |concepts| && forall k :: 0 <= k < |draws| ==> 0.0 <= draws[k] < 1.0
    ensures before == Feedback.Correct && after == Feedback.Neutral && !held
  {
    var d := definitions[0].id;
    var m := new Foundations(definitions, concepts, draws);
    ghost var first := m.shuffledConcepts;
    var accepted := m.DropOnZone(d, wrong);
    m.InitializeModule(draws);
    ghost var second := m.shuffledConcepts;
    StaleRevertClearsRight(definitions, first, second, wrong, right);
    accepted := m.DropOnZone(d, right);
    before := m.feedback[d];
    m.RevertFires();
    after := m.feedback[d];
    held := m.matches[d].Some?;
  }

  /** The catalog's first zone is d1; c1 belongs there and c2 does not. */
  lemma CatalogFirstZone()
    ensures |Catalog.Definitions| >= 1 && Catalog.Definitions[0].id == "d1"
    ensures Catalog.Concepts[0].matchId == "d1" && Catalog.Concepts[1].matchId != "d1"
    ensures |ZeroDraws(|Catalog.Concepts|)| == |Catalog.Concepts|
  {
  }

  /**
   * On the first zone: a wrong concept, Reset Module as written, then the
   * right concept; both drops are accepted, and the first drop's timer
   * clears the right concept.
   */
  lemma StaleRevertClearsRight(definitions: seq<Definition>, first: seq<Concept>, second: seq<Concept>, wrong: Concept, right: Concept)
    requires |definitions| >= 1
    requires right.matchId == definitions[0].id && wrong.matchId != definitions[0].id
    ensures var d := definitions[0].id;
            var b1 := Place(Initialized(definitions, first, []), d, wrong);
            var b2 := Place(Initialized(definitions, second, b1.reverts), d, right);
            && !Occupied(Initialized(definitions, first, []), d)
            && !Occupied(Initialized(definitions, second, b1.reverts), d)
            && b2.feedback[d] == Feedback.Correct
            && Fire(b2).feedback[d] == Feedback.Neutral && Fire(b2).matches[d].None?
  {
    var d := definitions[0].id;
    assert d in DefinitionIds(definitions);
  }

  /** With the cancelling reset the same sequence keeps the correct match. */
  method CancellingResetKeepsCorrectMatch() returns (after: Feedback, pending: nat)
    ensures after == Feedback.Correct && pending == 0
  {
    var c1, c2 := Catalog.Concepts[0], Catalog.Concepts[1];
    var m := new Foundations(Catalog.Definitions, Catalog.Concepts, ZeroDraws(6));
    assert m.definitions[0].id == "d1";
    var accepted := m.DropOnZone("d1", c2);
    m.ResetModuleCancellingReverts(ZeroDraws(6));
    accepted := m.DropOnZone("d1", c1);
    after := m.feedback["d1"];
    pending := |m.reverts|;
  }
}
