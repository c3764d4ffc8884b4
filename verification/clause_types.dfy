/**
 * The clause-type sorting exercise: clauses are dragged from an unplaced
 * list into one of two category lists, each placement stamped 'correct' or
 * 'incorrect'. Nothing is ever reverted; only Reset Module empties the
 * categories.
 *
 * `Sorting` is the component's state as a value; the class `ClauseTypes`
 * holds the same state in fields.
 */
module ClauseTypes {
  import opened Types
  import opened Pools
  import Catalog

  /** A clause as placed in a category: the dragged item with its verdict. */
  datatype PlacedItem = PlacedItem(item: ClauseTypeItem, status: Status)

  function PlacedId(p: PlacedItem): int { p.item.id }

  datatype Sorting = Sorting(unplacedItems: seq<ClauseTypeItem>, placements: map<ClauseType, seq<PlacedItem>>)

  /** Both category lists exist, as the component's initial record and every update keep them. */
  predicate HasCategories(s: Sorting)
  {
    Independent in s.placements && Dependent in s.placements
  }

  /** `resetModule`, and the initial state: the whole catalog unplaced, both categories empty. */
  function Reset(catalog: seq<ClauseTypeItem>): (s: Sorting)
    ensures HasCategories(s)
  {
    Sorting(catalog, map[Independent := [], Dependent := []])
  }

  /** The drop guard of `handleDropItem`: the dragged id is still in the unplaced list. */
  function Accepts(s: Sorting, item: ClauseTypeItem): bool
  {
    Find(s.unplacedItems, ItemId, item.id).Some?
  }

  /**
   * `handleDropItem`: when the guard passes, the item is appended to the
   * category with its verdict and filtered out of the unplaced list;
   * otherwise nothing happens.
   */
  function DropItem(s: Sorting, category: ClauseType, item: ClauseTypeItem): (r: Sorting)
    requires HasCategories(s)
    ensures HasCategories(r)
  {
    if Accepts(s, item) then
      var placed := PlacedItem(item, StatusOf(item.clauseType == category));
      Sorting(Without(s.unplacedItems, ItemId, {item.id}),
              s.placements[category := s.placements[category] + [placed]])
    else s
  }

  /** `Object.values(placements).flat()`: the independent list, then the dependent one. */
  function Placed(s: Sorting): seq<PlacedItem>
    requires HasCategories(s)
  {
    s.placements[Independent] + s.placements[Dependent]
  }

  /** A placement stamped 'correct'. */
  predicate IsCorrectPlacement(p: PlacedItem)
  {
    p.status == Status.Correct
  }

  /** `correctPlacements`. */
  function CorrectPlacements(s: Sorting): nat
    requires HasCategories(s)
  {
    CountWhere(Placed(s), IsCorrectPlacement)
  }

  /** `totalPlaced`. */
  function TotalPlaced(s: Sorting): nat
    requires HasCategories(s)
  {
    |Placed(s)|
  }

  /**
   * Conservation: the unplaced ids and the placed ids together are exactly
   * the catalog's ids.
   */
  ghost predicate Conserved(catalog: seq<ClauseTypeItem>, s: Sorting)
    requires HasCategories(s)
  {
    multiset(Keys(s.unplacedItems, ItemId)) + multiset(Keys(Placed(s), PlacedId)) == multiset(Keys(catalog, ItemId))
  }

  /** Every placement carries the verdict its category gives it. */
  ghost predicate Judged(s: Sorting)
  {
    forall c :: c in s.placements ==>
      forall p :: p in s.placements[c] ==> (p.status == Status.Correct <==> p.item.clauseType == c)
  }

  /** Each category list of `s` is a prefix of the same list in `t`. */
  ghost predicate Grown(s: Sorting, t: Sorting)
  {
    forall c :: c in s.placements ==> c in t.placements && s.placements[c] <= t.placements[c]
  }

  /** The reset state conserves the catalog, is judged, and shows no progress. */
  lemma ResetConserved(catalog: seq<ClauseTypeItem>)
    ensures Conserved(catalog, Reset(catalog)) && Judged(Reset(catalog))
    ensures CorrectPlacements(Reset(catalog)) == 0 && TotalPlaced(Reset(catalog)) == 0
    ensures Reset(catalog).unplacedItems == catalog
  {
    assert Placed(Reset(catalog)) == [];
  }

  /**
   * An accepted drop moves one id from the unplaced list to the placed ones,
   * so the catalog stays conserved; a rejected one changes nothing.
   */
  lemma DropConserves(catalog: seq<ClauseTypeItem>, s: Sorting, category: ClauseType, item: ClauseTypeItem)
    requires NoDuplicates(Keys(catalog, ItemId))
    requires HasCategories(s) && Conserved(catalog, s)
    ensures Conserved(catalog, DropItem(s, category, item))
  {
    if Accepts(s, item) {
      var r := DropItem(s, category, item);
      var placed := PlacedItem(item, StatusOf(item.clauseType == category));
      var ind, dep := s.placements[Independent], s.placements[Dependent];
      var mi, md, mk := multiset(Keys(ind, PlacedId)), multiset(Keys(dep, PlacedId)), multiset(Keys([placed], PlacedId));
      assert mk == multiset{item.id};
      KeysMultiset(ind, dep, PlacedId);
      TakeKey(s.unplacedItems, ItemId, item.id, multiset(Keys(Placed(s), PlacedId)), Keys(catalog, ItemId));
      if category == Independent {
        assert Placed(r) == (ind + [placed]) + dep;
        KeysMultiset(ind + [placed], dep, PlacedId);
        KeysMultiset(ind, [placed], PlacedId);
      } else {
        assert Placed(r) == ind + (dep + [placed]);
        KeysMultiset(ind, dep + [placed], PlacedId);
        KeysMultiset(dep, [placed], PlacedId);
      }
      assert multiset(Keys(Placed(r), PlacedId)) == mi + md + mk;
    }
  }

  /** Every placement a drop makes is judged against the category it lands in. */
  lemma DropJudged(s: Sorting, category: ClauseType, item: ClauseTypeItem)
    requires HasCategories(s) && Judged(s)
    ensures Judged(DropItem(s, category, item))
  {
  }

  /**
   * Nothing is ever taken back: a drop only appends, to the one category it
   * targets, and the other category keeps its list.
   */
  lemma DropOnlyAppends(s: Sorting, category: ClauseType, item: ClauseTypeItem)
    requires HasCategories(s)
    ensures Grown(s, DropItem(s, category, item))
    ensures forall c :: c in s.placements && c != category ==> DropItem(s, category, item).placements[c] == s.placements[c]
    ensures Accepts(s, item) ==>
      |DropItem(s, category, item).placements[category]| == |s.placements[category]| + 1 &&
      DropItem(s, category, item).placements[category][|s.placements[category]|].item == item
  {
  }

  /**
   * The guard passes exactly when the dragged id is still unplaced. A drop it
   * rejects changes nothing; one it accepts takes the dragged id, and no
   * other, out of the unplaced list, which keeps its order.
   */
  lemma DropTakesItem(s: Sorting, category: ClauseType, item: ClauseTypeItem)
    requires HasCategories(s)
    ensures Accepts(s, item) <==> item.id in Keys(s.unplacedItems, ItemId)
    ensures !Accepts(s, item) ==> DropItem(s, category, item) == s
    ensures Accepts(s, item) ==>
      var r := DropItem(s, category, item);
      && item.id !in Keys(r.unplacedItems, ItemId)
      && (forall x :: x in r.unplacedItems <==> x in s.unplacedItems && x.id != item.id)
      && InOrder(r.unplacedItems, s.unplacedItems)
  {
    if Accepts(s, item) {
      var r := DropItem(s, category, item);
      WithoutKeepsOrder(s.unplacedItems, ItemId, {item.id});
      if item.id in Keys(r.unplacedItems, ItemId) {
        var x := KeyOwner(r.unplacedItems, ItemId, item.id);
      }
    }
  }

  /** Growth is transitive, so a run of drops never removes a placement. */
  lemma GrownTransitive(s: Sorting, t: Sorting, u: Sorting)
    requires Grown(s, t) && Grown(t, u)
    ensures Grown(s, u)
  {
    forall c | c in s.placements ensures c in u.placements && s.placements[c] <= u.placements[c] {
      assert s.placements[c] == t.placements[c][..|s.placements[c]|];
      assert t.placements[c] == u.placements[c][..|t.placements[c]|];
    }
  }

  /**
   * The counters: no more correct placements than placements, and no more
   * placements than catalog entries; the catalog is split between the
   * unplaced list and the categories with no id in two places.
   */
  lemma CountersBounded(catalog: seq<ClauseTypeItem>, s: Sorting)
    requires NoDuplicates(Keys(catalog, ItemId))
    requires HasCategories(s) && Conserved(catalog, s)
    ensures CorrectPlacements(s) <= TotalPlaced(s) <= |catalog|
    ensures |s.unplacedItems| + TotalPlaced(s) == |catalog|
    ensures forall k :: multiset(Keys(s.unplacedItems, ItemId))[k] + multiset(Keys(Placed(s), PlacedId))[k] <= 1
  {
    var pool, placed := Keys(s.unplacedItems, ItemId), Keys(Placed(s), PlacedId);
    Conservation(pool, placed, Keys(catalog, ItemId));
    assert CountWhere(Placed(s), IsCorrectPlacement) <= |placed|;
    forall k ensures multiset(pool)[k] + multiset(placed)[k] <= 1 {
      assert multiset(pool)[k] + multiset(placed)[k] <= 1;
    }
  }

  class ClauseTypes {
    const catalog: seq<ClauseTypeItem>
    var unplacedItems: seq<ClauseTypeItem>
    var placements: map<ClauseType, seq<PlacedItem>>
    ghost var sounds: seq<Sound>

    function State(): Sorting
      reads this
    {
      Sorting(unplacedItems, placements)
    }

    constructor (catalog: seq<ClauseTypeItem>)
      ensures this.catalog == catalog
      ensures State() == Reset(catalog)
      ensures sounds == []
    {
      this.catalog := catalog;
      unplacedItems := catalog;
      placements := map[Independent := [], Dependent := []];
      sounds := [];
    }

    /** `handleDropItem`: guarded by the unplaced list, plays the drop cue and the verdict cue. */
    method HandleDropItem(category: ClauseType, item: ClauseTypeItem)
      requires HasCategories(State())
      modifies this
      ensures State() == DropItem(old(State()), category, item)
      ensures sounds == if Accepts(old(State()), item)
        then old(sounds) + [Sound.Drop, CueOf(item.clauseType == category)] else old(sounds)
    {
      if Find(unplacedItems, ItemId, item.id).Some? {
        sounds := sounds + [Sound.Drop];
        var isCorrect := item.clauseType == category;
        var newPlacedItem := PlacedItem(item, if isCorrect then Status.Correct else Status.Incorrect);
        if isCorrect {
          sounds := sounds + [Sound.Correct];
        } else {
          sounds := sounds + [Sound.Incorrect];
        }
        placements := placements[category := placements[category] + [newPlacedItem]];
        unplacedItems := Without(unplacedItems, ItemId, {item.id});
      }
    }

    /** Reset Module. */
    method ResetModule()
      modifies this
      ensures State() == Reset(catalog)
      ensures sounds == old(sounds)
    {
      unplacedItems := catalog;
      placements := map[Independent := [], Dependent := []];
    }
  }

  /**
   * An independent clause `a` and a dependent clause `b`: `a` dropped on
   * Dependent stays there marked incorrect, dropping it again is ignored,
   * and `b` dropped on Dependent is correct, which empties the unplaced list.
   */
  lemma SortingTwo(a: ClauseTypeItem, b: ClauseTypeItem)
    requires a.id != b.id && a.clauseType == Independent && b.clauseType == Dependent
    ensures var s1 := DropItem(Reset([a, b]), Dependent, a);
            && CorrectPlacements(s1) == 0
            && s1.placements[Dependent] == [PlacedItem(a, Status.Incorrect)]
            && DropItem(s1, Dependent, a) == s1
            && var s2 := DropItem(s1, Dependent, b);
            && CorrectPlacements(s2) == 1 && TotalPlaced(s2) == 2 && s2.unplacedItems == []
  {
    var s0 := Reset([a, b]);
    assert Keys(s0.unplacedItems, ItemId) == [a.id, b.id];
    var s1 := DropItem(s0, Dependent, a);
    assert s1.unplacedItems == [b];
    assert Keys(s1.unplacedItems, ItemId) == [b.id];
    assert Placed(s1) == [PlacedItem(a, Status.Incorrect)];
    var s2 := DropItem(s1, Dependent, b);
    assert Placed(s2) == [PlacedItem(a, Status.Incorrect), PlacedItem(b, Status.Correct)];
  }

  /** The same drops on the component, with the first two catalog clauses. */
  method SortingScenario() returns (correctAfterWrong: nat, stillPlaced: bool, correct: nat, total: nat, left: nat)
    ensures correctAfterWrong == 0 && stillPlaced
    ensures correct == 1 && total == 2 && left == 0
  {
    var first, second := Catalog.ClauseItems[0], Catalog.ClauseItems[1];
    assert Catalog.ClauseItems == [first, second];
    SortingTwo(first, second);
    var m := new ClauseTypes(Catalog.ClauseItems);
    m.HandleDropItem(Dependent, first);
    correctAfterWrong := CorrectPlacements(m.State());
    m.HandleDropItem(Dependent, first);
    stillPlaced := m.placements[Dependent] == [PlacedItem(first, Status.Incorrect)];
    m.HandleDropItem(Dependent, second);
    correct := CorrectPlacements(m.State());
    total := TotalPlaced(m.State());
    left := |m.unplacedItems|;
  }
}
