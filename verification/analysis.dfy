/**
 * The sentence-analysis exercise: sentences are dragged from an unplaced
 * list into one of four structural categories. Every accepted drop shows the
 * dropped sentence's explanation; a wrong placement is taken back by a timer
 * three seconds later, which filters it out of its category and returns the
 * catalog's copy of the sentence to the end of the unplaced list.
 *
 * `Board` is the component's state as a value, including the timers still
 * pending; the class `Analysis` holds the same state in fields.
 */
module Analysis {
  import opened Types
  import opened Pools
  import Catalog

  /** A sentence as placed in a category: the dragged sentence with its verdict. */
  datatype PlacedSentence = PlacedSentence(sentence: Sentence, status: Status)

  function PlacedSentenceId(p: PlacedSentence): int { p.sentence.id }

  /** The explanation panel: the text shown and whether it follows a correct drop. */
  datatype Explanation = Explanation(text: string, correct: bool)

  /** A pending revert timer: the category it filters and the sentence id it takes back. */
  datatype Revert = Revert(category: SentenceType, id: int)

  datatype Board = Board(
    unplacedSentences: seq<Sentence>,
    placements: map<SentenceType, seq<PlacedSentence>>,
    explanation: Option<Explanation>,
    /** The revert timers scheduled and not yet fired, earliest first. */
    reverts: seq<Revert>)

  /** All four category lists exist, as the initial record and every update keep them. */
  predicate HasCategories(b: Board)
  {
    forall c: SentenceType :: c in b.placements
  }

  function EmptyPlacements(): (p: map<SentenceType, seq<PlacedSentence>>)
    ensures forall c: SentenceType :: c in p && p[c] == []
  {
    var m := map[Simple := [], Compound := [], Complex := [], CompoundComplex := []];
    assert forall c: SentenceType :: c in m by {
      forall c: SentenceType ensures c in m { OneOfFour(c); }
    }
    m
  }

  lemma OneOfFour(c: SentenceType)
    ensures c == Simple || c == Compound || c == Complex || c == CompoundComplex
  {
  }

  /**
   * `resetModule`, and with no timers the initial state: the whole catalog
   * unplaced, the four categories empty, no explanation. Timers already
   * scheduled are not part of what it resets.
   */
  function Reset(catalog: seq<Sentence>, reverts: seq<Revert>): (b: Board)
    ensures HasCategories(b)
  {
    Board(catalog, EmptyPlacements(), None, reverts)
  }

  /** The drop guard of `handleDropSentence`: the dragged id is still in the unplaced list. */
  function Accepts(b: Board, sentence: Sentence): bool
  {
    Find(b.unplacedSentences, SentenceId, sentence.id).Some?
  }

  /**
   * `handleDropSentence`: when the guard passes, the explanation becomes the
   * dropped sentence's, the sentence is appended to the category with its
   * verdict and filtered out of the unplaced list, and a wrong placement
   * schedules its revert; otherwise nothing happens.
   */
  function DropSentence(b: Board, category: SentenceType, sentence: Sentence): (r: Board)
    requires HasCategories(b)
    ensures HasCategories(r)
  {
    if Accepts(b, sentence) then
      var isCorrect := sentence.sentenceType == category;
      Board(Without(b.unplacedSentences, SentenceId, {sentence.id}),
            b.placements[category := b.placements[category] + [PlacedSentence(sentence, StatusOf(isCorrect))]],
            Some(Explanation(sentence.explanation, isCorrect)),
            if isCorrect then b.reverts else b.reverts + [Revert(category, sentence.id)])
    else b
  }

  /** The catalog's copy of a sentence, as `SENTENCES_TO_ANALYZE.find` returns it; nothing when it has none. */
  function CatalogCopy(catalog: seq<Sentence>, id: int): (r: seq<Sentence>)
    ensures |r| <= 1
    ensures id in Keys(catalog, SentenceId) ==> |r| == 1 && r[0] in catalog && r[0].id == id
  {
    match Find(catalog, SentenceId, id)
    case Some(s) => [s]
    case None => []
  }

  /**
   * The earliest pending revert fires: its category keeps the placements of
   * other sentences, and the catalog's copy of the sentence goes to the end of
   * the unplaced list. The explanation stays as it is.
   */
  function Fire(catalog: seq<Sentence>, b: Board): (r: Board)
    requires HasCategories(b) && b.reverts != []
    ensures HasCategories(r)
  {
    var t := b.reverts[0];
    b.(placements := b.placements[t.category := Without(b.placements[t.category], PlacedSentenceId, {t.id})],
       unplacedSentences := b.unplacedSentences + CatalogCopy(catalog, t.id),
       reverts := b.reverts[1..])
  }

  /** `Object.values(placements).flat()`: the four lists in declaration order. */
  function Placed(b: Board): seq<PlacedSentence>
    requires HasCategories(b)
  {
    b.placements[Simple] + b.placements[Compound] + b.placements[Complex] + b.placements[CompoundComplex]
  }

  /** A placement stamped 'correct'. */
  predicate IsCorrectPlacement(p: PlacedSentence)
  {
    p.status == Status.Correct
  }

  /** `correctPlacements`. */
  function CorrectPlacements(b: Board): nat
    requires HasCategories(b)
  {
    CountWhere(Placed(b), IsCorrectPlacement)
  }

  /** `totalPlaced`. */
  function TotalPlaced(b: Board): nat
    requires HasCategories(b)
  {
    |Placed(b)|
  }

  /** The ids placed in the four categories, counted. */
  ghost function PlacedIds(p: map<SentenceType, seq<PlacedSentence>>): multiset<int>
    requires forall c: SentenceType :: c in p
  {
    multiset(Keys(p[Simple], PlacedSentenceId)) + multiset(Keys(p[Compound], PlacedSentenceId))
    + multiset(Keys(p[Complex], PlacedSentenceId)) + multiset(Keys(p[CompoundComplex], PlacedSentenceId))
  }

  /**
   * Conservation: the unplaced ids and the placed ids together are exactly
   * the catalog's ids.
   */
  ghost predicate Conserved(catalog: seq<Sentence>, b: Board)
    requires HasCategories(b)
  {
    multiset(Keys(b.unplacedSentences, SentenceId)) + PlacedIds(b.placements) == multiset(Keys(catalog, SentenceId))
  }

  /**
   * Every pending revert still has its sentence in the category it filters,
   * and no two pending reverts take back the same sentence.
   */
  ghost predicate LiveReverts(b: Board)
    requires HasCategories(b)
  {
    && (forall i :: 0 <= i < |b.reverts| ==> b.reverts[i].id in Keys(b.placements[b.reverts[i].category], PlacedSentenceId))
    && (forall i, j :: 0 <= i < j < |b.reverts| ==> b.reverts[i].id != b.reverts[j].id)
  }

  /** The placed ids are those of the flattened placements. */
  lemma PlacedIdsFlat(b: Board)
    requires HasCategories(b)
    ensures multiset(Keys(Placed(b), PlacedSentenceId)) == PlacedIds(b.placements)
  {
    var p := b.placements;
    KeysMultiset(p[Simple] + p[Compound] + p[Complex], p[CompoundComplex], PlacedSentenceId);
    KeysMultiset(p[Simple] + p[Compound], p[Complex], PlacedSentenceId);
    KeysMultiset(p[Simple], p[Compound], PlacedSentenceId);
  }

  /** Replacing one category's list changes the placed ids by exactly that list's ids. */
  lemma PlacedIdsUpdate(p: map<SentenceType, seq<PlacedSentence>>, c: SentenceType, l: seq<PlacedSentence>)
    requires forall c: SentenceType :: c in p
    ensures PlacedIds(p[c := l]) + multiset(Keys(p[c], PlacedSentenceId)) == PlacedIds(p) + multiset(Keys(l, PlacedSentenceId))
  {
  }

  /** Appending a placement to a category adds its id to the placed ids. */
  lemma PlacedIdsAppend(p: map<SentenceType, seq<PlacedSentence>>, c: SentenceType, x: PlacedSentence)
    requires forall c: SentenceType :: c in p
    ensures PlacedIds(p[c := p[c] + [x]]) == PlacedIds(p) + multiset{x.sentence.id}
  {
    PlacedIdsUpdate(p, c, p[c] + [x]);
    KeysMultiset(p[c], [x], PlacedSentenceId);
    assert Keys([x], PlacedSentenceId) == [x.sentence.id];
    var a := PlacedIds(p[c := p[c] + [x]]);
    forall j ensures a[j] == (PlacedIds(p) + multiset{x.sentence.id})[j] {
      assert (a + multiset(Keys(p[c], PlacedSentenceId)))[j]
          == (PlacedIds(p) + multiset(Keys(p[c] + [x], PlacedSentenceId)))[j];
    }
  }

  /** Filtering out an id held once by a category removes that one id from the placed ids. */
  lemma PlacedIdsRemove(p: map<SentenceType, seq<PlacedSentence>>, c: SentenceType, k: int)
    requires forall c: SentenceType :: c in p
    requires k in Keys(p[c], PlacedSentenceId) && multiset(Keys(p[c], PlacedSentenceId))[k] <= 1
    ensures PlacedIds(p[c := Without(p[c], PlacedSentenceId, {k})]) + multiset{k} == PlacedIds(p)
  {
    var kept := Without(p[c], PlacedSentenceId, {k});
    ReturnKey(p[c], PlacedSentenceId, k);
    PlacedIdsUpdate(p, c, kept);
    var a := PlacedIds(p[c := kept]);
    forall j ensures (a + multiset{k})[j] == PlacedIds(p)[j] {
      assert (a + multiset(Keys(p[c], PlacedSentenceId)))[j] == (PlacedIds(p) + multiset(Keys(kept, PlacedSentenceId)))[j];
      assert (multiset(Keys(kept, PlacedSentenceId)) + multiset{k})[j] == multiset(Keys(p[c], PlacedSentenceId))[j];
    }
  }

  /** The ids in one category are among the placed ids. */
  lemma PlacedIdsInclude(p: map<SentenceType, seq<PlacedSentence>>, c: SentenceType)
    requires forall c: SentenceType :: c in p
    ensures multiset(Keys(p[c], PlacedSentenceId)) <= PlacedIds(p)
  {
  }

  /** The reset state conserves the catalog, has no explanation and shows no progress. */
  lemma ResetConserved(catalog: seq<Sentence>)
    ensures Conserved(catalog, Reset(catalog, [])) && LiveReverts(Reset(catalog, []))
    ensures CorrectPlacements(Reset(catalog, [])) == 0 && TotalPlaced(Reset(catalog, [])) == 0
    ensures Reset(catalog, []).unplacedSentences == catalog && Reset(catalog, []).explanation.None?
  {
    var b := Reset(catalog, []);
    assert Placed(b) == [];
    assert PlacedIds(b.placements) == multiset{};
  }

  /** Resetting twice is resetting once. */
  lemma ResetIdempotent(catalog: seq<Sentence>, b: Board)
    ensures Reset(catalog, Reset(catalog, b.reverts).reverts) == Reset(catalog, b.reverts)
  {
  }

  /**
   * An accepted drop replaces whatever explanation was shown with the dropped
   * sentence's and its verdict, appends the sentence to the one category it
   * targets, schedules a revert exactly when the placement is wrong, and
   * takes that sentence, and no other, out of the unplaced list, which keeps
   * its order; a rejected drop changes nothing.
   */
  lemma DropExplains(b: Board, category: SentenceType, sentence: Sentence)
    requires HasCategories(b)
    ensures var r := DropSentence(b, category, sentence);
      && (Accepts(b, sentence) ==>
        && r.explanation == Some(Explanation(sentence.explanation, sentence.sentenceType == category))
        && r.placements[category] == b.placements[category] + [PlacedSentence(sentence, StatusOf(sentence.sentenceType == category))]
        && (forall c :: c != category ==> r.placements[c] == b.placements[c])
        && (r.reverts == b.reverts <==> sentence.sentenceType == category)
        && sentence.id !in Keys(r.unplacedSentences, SentenceId)
        && (forall y :: y in r.unplacedSentences <==> y in b.unplacedSentences && y.id != sentence.id)
        && InOrder(r.unplacedSentences, b.unplacedSentences))
      && (!Accepts(b, sentence) ==> r == b)
  {
    if Accepts(b, sentence) {
      var r := DropSentence(b, category, sentence);
      WithoutKeepsOrder(b.unplacedSentences, SentenceId, {sentence.id});
      if sentence.id in Keys(r.unplacedSentences, SentenceId) {
        var x := KeyOwner(r.unplacedSentences, SentenceId, sentence.id);
      }
      if sentence.sentenceType != category {
        assert r.reverts[|b.reverts|] == Revert(category, sentence.id);
      }
    }
  }

  /** An accepted drop moves one id from the unplaced list to a category, so the catalog stays conserved. */
  lemma DropConserves(catalog: seq<Sentence>, b: Board, category: SentenceType, sentence: Sentence)
    requires NoDuplicates(Keys(catalog, SentenceId))
    requires HasCategories(b) && Conserved(catalog, b)
    ensures Conserved(catalog, DropSentence(b, category, sentence))
  {
    if Accepts(b, sentence) {
      var r := DropSentence(b, category, sentence);
      var l := b.placements[category];
      var placed := PlacedSentence(sentence, StatusOf(sentence.sentenceType == category));
      TakeKey(b.unplacedSentences, SentenceId, sentence.id, PlacedIds(b.placements), Keys(catalog, SentenceId));
      PlacedIdsAppend(b.placements, category, placed);
    }
  }

  /** On a conserved board with live reverts, every pending revert names a placed catalog id, none unplaced. */
  lemma PendingArePlaced(catalog: seq<Sentence>, b: Board)
    requires NoDuplicates(Keys(catalog, SentenceId))
    requires HasCategories(b) && Conserved(catalog, b) && LiveReverts(b)
    ensures forall i :: 0 <= i < |b.reverts| ==> b.reverts[i].id !in Keys(b.unplacedSentences, SentenceId)
    ensures forall i :: 0 <= i < |b.reverts| ==> b.reverts[i].id in Keys(catalog, SentenceId)
  {
    PlacedIdsOnce(catalog, b);
    forall i | 0 <= i < |b.reverts|
      ensures b.reverts[i].id !in Keys(b.unplacedSentences, SentenceId)
      ensures b.reverts[i].id in Keys(catalog, SentenceId)
    {
      var t := b.reverts[i];
      PlacedIdsInclude(b.placements, t.category);
      assert multiset(Keys(b.placements[t.category], PlacedSentenceId))[t.id] >= 1;
      assert (multiset(Keys(b.unplacedSentences, SentenceId)) + PlacedIds(b.placements))[t.id] >= 1;
    }
  }

  /**
   * A drop keeps the pending reverts live: the categories only grow, and a
   * new revert takes back a sentence that was unplaced, so no pending revert
   * names it.
   */
  lemma DropKeepsRevertsLive(catalog: seq<Sentence>, b: Board, category: SentenceType, sentence: Sentence)
    requires NoDuplicates(Keys(catalog, SentenceId))
    requires HasCategories(b) && Conserved(catalog, b) && LiveReverts(b)
    ensures LiveReverts(DropSentence(b, category, sentence))
  {
    if Accepts(b, sentence) {
      var r := DropSentence(b, category, sentence);
      PendingArePlaced(catalog, b);
      forall i | 0 <= i < |b.reverts|
        ensures b.reverts[i].id in Keys(r.placements[b.reverts[i].category], PlacedSentenceId)
      {
        var t := b.reverts[i];
        var x := KeyOwner(b.placements[t.category], PlacedSentenceId, t.id);
        KeyOf(r.placements[t.category], PlacedSentenceId, x);
      }
      if sentence.sentenceType != category {
        KeyOf(r.placements[category], PlacedSentenceId, PlacedSentence(sentence, Status.Incorrect));
      }
    }
  }

  /**
   * When the earliest revert fires on a conserved board whose reverts are
   * live, it removes exactly the one placement it names, so the board stays
   * conserved with one placement fewer.
   */
  lemma FireConserves(catalog: seq<Sentence>, b: Board)
    requires NoDuplicates(Keys(catalog, SentenceId))
    requires HasCategories(b) && Conserved(catalog, b) && LiveReverts(b) && b.reverts != []
    ensures Conserved(catalog, Fire(catalog, b))
    ensures TotalPlaced(Fire(catalog, b)) + 1 == TotalPlaced(b)
  {
    var r := Fire(catalog, b);
    var t := b.reverts[0];
    var l := b.placements[t.category];
    PendingArePlaced(catalog, b);
    assert multiset(Keys(l, PlacedSentenceId))[t.id] <= 1 by {
      PlacedIdsOnce(catalog, b);
      PlacedIdsInclude(b.placements, t.category);
    }
    PlacedIdsRemove(b.placements, t.category, t.id);
    var copy := CatalogCopy(catalog, t.id);
    KeysMultiset(b.unplacedSentences, copy, SentenceId);
    assert multiset(Keys(copy, SentenceId)) == multiset{t.id};
    PlacedIdsFlat(b);
    PlacedIdsFlat(r);
    assert |multiset(Keys(Placed(r), PlacedSentenceId))| + 1 == |multiset(Keys(Placed(b), PlacedSentenceId))|;
  }

  /**
   * The sentence a firing revert returns is the catalog's copy of the one it
   * names, added at the end of the unplaced list; the explanation is kept.
   */
  lemma FireReturnsSentence(catalog: seq<Sentence>, b: Board)
    requires NoDuplicates(Keys(catalog, SentenceId))
    requires HasCategories(b) && Conserved(catalog, b) && LiveReverts(b) && b.reverts != []
    ensures var r := Fire(catalog, b);
      && |r.unplacedSentences| == |b.unplacedSentences| + 1
      && r.unplacedSentences[..|b.unplacedSentences|] == b.unplacedSentences
      && r.unplacedSentences[|b.unplacedSentences|].id == b.reverts[0].id
      && r.unplacedSentences[|b.unplacedSentences|] in catalog
      && r.explanation == b.explanation
  {
    PendingArePlaced(catalog, b);
  }

  /**
   * A firing revert filters its sentence out of the category it was placed
   * in, keeping the other placements there in their order, and touches no
   * other category; the explanation stays.
   */
  lemma FireTakesBack(catalog: seq<Sentence>, b: Board)
    requires HasCategories(b) && b.reverts != []
    ensures var r := Fire(catalog, b);
            var t := b.reverts[0];
            && (forall p :: p in r.placements[t.category] <==> p in b.placements[t.category] && p.sentence.id != t.id)
            && InOrder(r.placements[t.category], b.placements[t.category])
            && (forall c :: c != t.category ==> r.placements[c] == b.placements[c])
            && r.explanation == b.explanation
  {
    var t := b.reverts[0];
    WithoutKeepsOrder(b.placements[t.category], PlacedSentenceId, {t.id});
  }

  /** On a conserved board each placed id is placed once. */
  lemma PlacedIdsOnce(catalog: seq<Sentence>, b: Board)
    requires NoDuplicates(Keys(catalog, SentenceId))
    requires HasCategories(b) && Conserved(catalog, b)
    ensures forall k :: multiset(Keys(b.unplacedSentences, SentenceId))[k] + PlacedIds(b.placements)[k] <= 1
  {
    NoDuplicatesOnce(Keys(catalog, SentenceId));
    forall k ensures multiset(Keys(b.unplacedSentences, SentenceId))[k] + PlacedIds(b.placements)[k] <= 1 {
      assert (multiset(Keys(b.unplacedSentences, SentenceId)) + PlacedIds(b.placements))[k] == multiset(Keys(catalog, SentenceId))[k];
    }
  }

  /**
   * Firing the earliest revert keeps the others live: it filters out only
   * its own sentence, which no other pending revert names.
   */
  lemma FireKeepsRevertsLive(catalog: seq<Sentence>, b: Board)
    requires HasCategories(b) && LiveReverts(b) && b.reverts != []
    ensures LiveReverts(Fire(catalog, b))
  {
    var r := Fire(catalog, b);
    var t := b.reverts[0];
    forall i | 0 <= i < |r.reverts|
      ensures r.reverts[i].id in Keys(r.placements[r.reverts[i].category], PlacedSentenceId)
    {
      var u := b.reverts[i + 1];
      assert u == r.reverts[i] && u.id != t.id;
      var x := KeyOwner(b.placements[u.category], PlacedSentenceId, u.id);
      KeyOf(r.placements[u.category], PlacedSentenceId, x);
    }
  }

  /**
   * The counters: no more correct placements than placements, and no more
   * placements than catalog entries; on a conserved board no id is in two
   * places.
   */
  lemma CountersBounded(catalog: seq<Sentence>, b: Board)
    requires NoDuplicates(Keys(catalog, SentenceId))
    requires HasCategories(b) && Conserved(catalog, b)
    ensures CorrectPlacements(b) <= TotalPlaced(b) <= |catalog|
    ensures |b.unplacedSentences| + TotalPlaced(b) == |catalog|
    ensures forall k :: multiset(Keys(b.unplacedSentences, SentenceId))[k] + PlacedIds(b.placements)[k] <= 1
  {
    var pool, placed := Keys(b.unplacedSentences, SentenceId), Keys(Placed(b), PlacedSentenceId);
    PlacedIdsFlat(b);
    Conservation(pool, placed, Keys(catalog, SentenceId));
    forall k ensures multiset(pool)[k] + PlacedIds(b.placements)[k] <= 1 {
      assert multiset(pool)[k] + multiset(placed)[k] <= 1;
    }
  }

  /**
   * As written, Reset Module does not cancel the pending timers: a sentence
   * dropped in a wrong category, then a reset, then that drop's revert firing
   * leaves the sentence twice in the unplaced list, one more entry than the
   * catalog has.
   */
  lemma StaleRevertDuplicates(catalog: seq<Sentence>, x: Sentence, category: SentenceType)
    requires NoDuplicates(Keys(catalog, SentenceId))
    requires x in catalog && x.sentenceType != category
    ensures var dropped := DropSentence(Reset(catalog, []), category, x);
            var r := Fire(catalog, Reset(catalog, dropped.reverts));
            && dropped.reverts == [Revert(category, x.id)]
            && multiset(Keys(r.unplacedSentences, SentenceId))[x.id] == 2
            && |r.unplacedSentences| == |catalog| + 1
            && !Conserved(catalog, r)
  {
    KeyOf(catalog, SentenceId, x);
    assert Accepts(Reset(catalog, []), x);
    var t := Revert(category, x.id);
    assert DropSentence(Reset(catalog, []), category, x).reverts == [t];
    var r := Fire(catalog, Reset(catalog, [t]));
    ResetThenFire(catalog, t);
    DuplicateCount(catalog, x);
    assert !Conserved(catalog, r) by {
      NoDuplicatesOnce(Keys(catalog, SentenceId));
      assert (multiset(Keys(r.unplacedSentences, SentenceId)) + PlacedIds(r.placements))[x.id] == 2;
    }
  }

  /** A revert firing on a reset board returns its sentence to a full unplaced list and leaves the categories empty. */
  lemma ResetThenFire(catalog: seq<Sentence>, t: Revert)
    requires t.id in Keys(catalog, SentenceId)
    ensures var r := Fire(catalog, Reset(catalog, [t]));
            && r.unplacedSentences == catalog + CatalogCopy(catalog, t.id)
            && |r.unplacedSentences| == |catalog| + 1
            && PlacedIds(r.placements) == multiset{}
  {
    var r := Fire(catalog, Reset(catalog, [t]));
    assert r.placements == EmptyPlacements();
  }

  /** A catalog with distinct ids, followed by its copy of one of them, holds that id twice. */
  lemma DuplicateCount(catalog: seq<Sentence>, x: Sentence)
    requires NoDuplicates(Keys(catalog, SentenceId))
    requires x in catalog
    ensures multiset(Keys(catalog + CatalogCopy(catalog, x.id), SentenceId))[x.id] == 2
  {
    var copy := CatalogCopy(catalog, x.id);
    KeyOf(catalog, SentenceId, x);
    KeysMultiset(catalog, copy, SentenceId);
    assert multiset(Keys(copy, SentenceId)) == multiset{x.id};
    NoDuplicatesOnce(Keys(catalog, SentenceId));
  }

  /**
   * With the pending timers cancelled, the reset board has no revert left to
   * fire: it is conserved and its reverts are trivially live.
   */
  lemma CancellingResetConserves(catalog: seq<Sentence>, b: Board)
    ensures Reset(catalog, []).reverts == []
    ensures Conserved(catalog, Reset(catalog, [])) && LiveReverts(Reset(catalog, []))
  {
    ResetConserved(catalog);
  }

  class Analysis {
    const catalog: seq<Sentence>
    var unplacedSentences: seq<Sentence>
    var placements: map<SentenceType, seq<PlacedSentence>>
    var explanation: Option<Explanation>
    /** The pending revert timers, earliest first. */
    var reverts: seq<Revert>
    ghost var sounds: seq<Sound>

    function State(): Board
      reads this
    {
      Board(unplacedSentences, placements, explanation, reverts)
    }

    constructor (catalog: seq<Sentence>)
      ensures this.catalog == catalog
      ensures State() == Reset(catalog, [])
      ensures sounds == []
    {
      this.catalog := catalog;
      unplacedSentences := catalog;
      placements := EmptyPlacements();
      explanation := None;
      reverts := [];
      sounds := [];
    }

    /** `handleDropSentence`: guarded by the unplaced list, plays the drop cue and the verdict cue. */
    method HandleDropSentence(category: SentenceType, sentence: Sentence)
      requires HasCategories(State())
      modifies this
      ensures State() == DropSentence(old(State()), category, sentence)
      ensures sounds == if Accepts(old(State()), sentence)
        then old(sounds) + [Sound.Drop, CueOf(sentence.sentenceType == category)] else old(sounds)
    {
      if Find(unplacedSentences, SentenceId, sentence.id).Some? {
        sounds := sounds + [Sound.Drop];
        var isCorrect := sentence.sentenceType == category;
        var newPlacedSentence := PlacedSentence(sentence, if isCorrect then Status.Correct else Status.Incorrect);
        explanation := Some(Explanation(sentence.explanation, isCorrect));
        if isCorrect {
          sounds := sounds + [Sound.Correct];
        } else {
          sounds := sounds + [Sound.Incorrect];
          reverts := reverts + [Revert(category, sentence.id)];
        }
        placements := placements[category := placements[category] + [newPlacedSentence]];
        unplacedSentences := Without(unplacedSentences, SentenceId, {sentence.id});
      }
    }

    /** The earliest pending revert timer fires. */
    method RevertFires()
      requires HasCategories(State()) && reverts != []
      modifies this
      ensures State() == Fire(catalog, old(State()))
      ensures sounds == old(sounds)
    {
      var t := reverts[0];
      placements := placements[t.category := Without(placements[t.category], PlacedSentenceId, {t.id})];
      unplacedSentences := unplacedSentences + CatalogCopy(catalog, t.id);
      reverts := reverts[1..];
    }

    /** Reset Module, as written: the pending timers stay scheduled. */
    method ResetModule()
      modifies this
      ensures State() == Reset(catalog, old(reverts))
      ensures sounds == old(sounds)
    {
      unplacedSentences := catalog;
      placements := EmptyPlacements();
      explanation := None;
    }

    /** Reset Module that first cancels the pending timers. */
    method ResetModuleCancellingReverts()
      modifies this
      ensures State() == Reset(catalog, [])
      ensures sounds == old(sounds)
    {
      reverts := [];
      ResetModule();
    }
  }

  /**
   * On the component with the catalog: the simple sentence dropped on
   * Compound, Reset Module, then its timer fires; the sentence is unplaced
   * twice.
   */
  method StaleRevertScenario() returns (copies: nat, unplaced: nat)
    ensures copies == 2 && unplaced == |Catalog.Sentences| + 1
  {
    var x := Catalog.Sentences[0];
    assert x.sentenceType == Simple;
    NoDuplicatesCatalog();
    StaleRevertDuplicates(Catalog.Sentences, x, Compound);
    var m := new Analysis(Catalog.Sentences);
    m.HandleDropSentence(Compound, x);
    m.ResetModule();
    m.RevertFires();
    copies := multiset(Keys(m.unplacedSentences, SentenceId))[x.id];
    unplaced := |m.unplacedSentences|;
  }

  /** The catalog's sentence ids are distinct. */
  lemma NoDuplicatesCatalog()
    ensures NoDuplicates(Keys(Catalog.Sentences, SentenceId))
  {
    assert Keys(Catalog.Sentences, SentenceId) == [1, 2];
  }

  /** With the cancelling reset the same steps leave nothing to fire and the catalog conserved. */
  method CancellingResetScenario() returns (pending: nat, unplaced: nat)
    ensures pending == 0 && unplaced == |Catalog.Sentences|
  {
    var x := Catalog.Sentences[0];
    var m := new Analysis(Catalog.Sentences);
    m.HandleDropSentence(Compound, x);
    m.ResetModuleCancellingReverts();
    pending := |m.reverts|;
    unplaced := |m.unplacedSentences|;
  }
}
