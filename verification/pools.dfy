/**
 * The list idioms every exercise applies to its pools of items:
 * `s.map(x => x.id)`, `s.find(x => x.id === k)` and
 * `s.filter(x => x.id !== k)`, written once over an arbitrary key
 * projection, with the facts about them that conservation of items rests on.
 */
module Pools {
  import opened Types

  /** The keys of a pool, in pool order. */
  function Keys<T, K>(s: seq<T>, key: T -> K): (r: seq<K>)
    ensures |r| == |s|
    ensures forall i :: 0 <= i < |s| ==> r[i] == key(s[i])
  {
    seq(|s|, i requires 0 <= i < |s| => key(s[i]))
  }

  lemma KeysAppend<T, K>(a: seq<T>, b: seq<T>, key: T -> K)
    ensures Keys(a + b, key) == Keys(a, key) + Keys(b, key)
  {
  }

  /** The keys of a concatenation, counted: those of each part. */
  lemma KeysMultiset<T, K>(a: seq<T>, b: seq<T>, key: T -> K)
    ensures multiset(Keys(a + b, key)) == multiset(Keys(a, key)) + multiset(Keys(b, key))
  {
    KeysAppend(a, b, key);
  }

  /** No key occurs twice. */
  ghost predicate NoDuplicates<K>(ks: seq<K>)
  {
    forall i, j :: 0 <= i < j < |ks| ==> ks[i] != ks[j]
  }

  /** The first element with key `k`, if any. */
  function Find<T, K(==)>(s: seq<T>, key: T -> K, k: K): (r: Option<T>)
    ensures r.Some? <==> k in Keys(s, key)
    ensures r.Some? ==> r.value in s && key(r.value) == k
  {
    if s == [] then None
    else if key(s[0]) == k then Some(s[0])
    else Find(s[1..], key, k)
  }

  /**
   * The elements whose key is not in `ks`, in their original order
   * (with `ks` a singleton, the `filter(x => x.id !== k)` of the components).
   */
  function Without<T(==,!new), K(==)>(s: seq<T>, key: T -> K, ks: set<K>): (r: seq<T>)
    ensures forall x :: x in r <==> x in s && key(x) !in ks
    ensures |r| <= |s|
  {
    if s == [] then []
    else if key(s[0]) in ks then Without(s[1..], key, ks)
    else [s[0]] + Without(s[1..], key, ks)
  }

  /** Filtering a concatenation filters each part: the survivors keep their relative order. */
  lemma {:induction false} WithoutAppend<T(!new), K>(a: seq<T>, b: seq<T>, key: T -> K, ks: set<K>)
    ensures Without(a + b, key, ks) == Without(a, key, ks) + Without(b, key, ks)
  {
    if a != [] {
      assert (a + b)[0] == a[0] && (a + b)[1..] == a[1..] + b;
      WithoutAppend(a[1..], b, key, ks);
    } else {
      assert a + b == b;
    }
  }

  /** Filtering out keys that do not occur changes nothing. */
  lemma {:induction false} WithoutAbsent<T(!new), K>(s: seq<T>, key: T -> K, ks: set<K>)
    requires forall x :: x in s ==> key(x) !in ks
    ensures Without(s, key, ks) == s
  {
    if s != [] {
      assert forall x :: x in s[1..] ==> x in s;
      WithoutAbsent(s[1..], key, ks);
    }
  }

  /** Filtering twice is filtering once by both sets of keys. */
  lemma {:induction false} WithoutTwice<T(!new), K>(s: seq<T>, key: T -> K, ks: set<K>, more: set<K>)
    ensures Without(Without(s, key, ks), key, more) == Without(s, key, ks + more)
  {
    if s != [] {
      WithoutTwice(s[1..], key, ks, more);
      if key(s[0]) !in ks {
        assert Without(s, key, ks) == [s[0]] + Without(s[1..], key, ks);
        WithoutAppend([s[0]], Without(s[1..], key, ks), key, more);
        assert [s[0]][1..] == [];
      }
    }
  }

  /**
   * `pos` lays `r` out inside `s`: the i-th element of `r` is the element of
   * `s` at `pos[i]`, and the positions increase.
   */
  ghost predicate Embeds<T>(pos: seq<nat>, r: seq<T>, s: seq<T>)
  {
    && |pos| == |r|
    && (forall i :: 0 <= i < |pos| ==> pos[i] < |s| && s[pos[i]] == r[i])
    && (forall i, j :: 0 <= i < j < |pos| ==> pos[i] < pos[j])
  }

  /** `r` is `s` with some elements left out and the others in their order. */
  ghost predicate InOrder<T>(r: seq<T>, s: seq<T>)
  {
    exists pos :: Embeds(pos, r, s)
  }

  /** Positions one further on. */
  function Shifted(pos: seq<nat>): (r: seq<nat>)
    ensures |r| == |pos| && forall i :: 0 <= i < |pos| ==> r[i] == pos[i] + 1
  {
    seq(|pos|, i requires 0 <= i < |pos| => pos[i] + 1)
  }

  /** A layout inside `s` shifts to one inside `[x] + s`, with or without `x` itself. */
  lemma ShiftedEmbeds<T>(pos: seq<nat>, r: seq<T>, s: seq<T>, x: T)
    requires Embeds(pos, r, s)
    ensures Embeds(Shifted(pos), r, [x] + s)
    ensures Embeds([0] + Shifted(pos), [x] + r, [x] + s)
  {
    var t := [x] + s;
    assert forall i :: 0 <= i < |pos| ==> t[pos[i] + 1] == s[pos[i]];
  }

  /** The survivors of a filter are a subsequence of the filtered pool. */
  lemma {:induction false} WithoutInOrder<T(!new), K>(s: seq<T>, key: T -> K, ks: set<K>)
    ensures InOrder(Without(s, key, ks), s)
  {
    if s == [] {
      assert Embeds([], Without(s, key, ks), s);
    } else {
      var rest := Without(s[1..], key, ks);
      WithoutInOrder(s[1..], key, ks);
      var pos :| Embeds(pos, rest, s[1..]);
      ShiftedEmbeds(pos, rest, s[1..], s[0]);
      assert [s[0]] + s[1..] == s;
      if key(s[0]) in ks {
        assert Embeds(Shifted(pos), Without(s, key, ks), s);
      } else {
        assert Embeds([0] + Shifted(pos), Without(s, key, ks), s);
      }
    }
  }

  /** A subsequence of a sequence without repeated elements has none either. */
  lemma InOrderDistinct<T>(r: seq<T>, s: seq<T>)
    requires InOrder(r, s) && NoDuplicates(s)
    ensures NoDuplicates(r)
  {
    var pos :| Embeds(pos, r, s);
    forall i, j | 0 <= i < j < |r| ensures r[i] != r[j] {
      assert s[pos[i]] != s[pos[j]];
    }
  }

  /** A filter keeps the survivors in order, and repeats none when the pool repeats none. */
  lemma WithoutKeepsOrder<T(!new), K>(s: seq<T>, key: T -> K, ks: set<K>)
    ensures InOrder(Without(s, key, ks), s)
    ensures NoDuplicates(s) ==> NoDuplicates(Without(s, key, ks))
  {
    WithoutInOrder(s, key, ks);
    if NoDuplicates(s) {
      InOrderDistinct(Without(s, key, ks), s);
    }
  }

  /**
   * Removing the one element `x` whose key is `key(x)` from `a + [x] + b`
   * leaves exactly `a + b`: the other elements stay, in the same order.
   */
  lemma WithoutSplit<T(!new), K>(a: seq<T>, x: T, b: seq<T>, key: T -> K)
    requires forall y :: y in a ==> key(y) != key(x)
    requires forall y :: y in b ==> key(y) != key(x)
    ensures Without(a + [x] + b, key, {key(x)}) == a + b
  {
    var ks := {key(x)};
    assert Without(a, key, ks) == a by { WithoutAbsent(a, key, ks); }
    assert Without(b, key, ks) == b by { WithoutAbsent(b, key, ks); }
    assert Without([x], key, ks) == [];
    assert Without(a + [x], key, ks) == a by { WithoutAppend(a, [x], key, ks); }
    WithoutAppend(a + [x], b, key, ks);
  }

  /** How often each element survives the filter. */
  lemma {:induction false} WithoutCount<T(!new), K>(s: seq<T>, key: T -> K, ks: set<K>)
    ensures forall y :: multiset(Without(s, key, ks))[y] == if key(y) in ks then 0 else multiset(s)[y]
  {
    if s != [] {
      WithoutCount(s[1..], key, ks);
      assert s == [s[0]] + s[1..];
    }
  }

  /** How often each key survives the filter. */
  lemma {:induction false} WithoutKeyCount<T(!new), K>(s: seq<T>, key: T -> K, ks: set<K>)
    ensures forall k :: multiset(Keys(Without(s, key, ks), key))[k] == if k in ks then 0 else multiset(Keys(s, key))[k]
  {
    if s != [] {
      WithoutKeyCount(s[1..], key, ks);
      assert s == [s[0]] + s[1..];
      KeysAppend([s[0]], s[1..], key);
      assert Keys([s[0]], key) == [key(s[0])];
      if key(s[0]) !in ks {
        KeysAppend([s[0]], Without(s[1..], key, ks), key);
      }
    }
  }

  /** A sequence without duplicates holds each value at most once. */
  lemma {:induction false} NoDuplicatesOnce<K>(ks: seq<K>)
    requires NoDuplicates(ks)
    ensures forall k :: multiset(ks)[k] <= 1
  {
    if ks != [] {
      assert ks == [ks[0]] + ks[1..];
      assert ks[0] !in ks[1..];
      NoDuplicatesOnce(ks[1..]);
    }
  }

  /**
   * Conservation: when a pool and the placed items together hold exactly the
   * keys of a catalog without duplicates, their sizes add up to the catalog's
   * and no key is in two places, or twice in one.
   */
  lemma Conservation<K>(pool: seq<K>, placed: seq<K>, catalog: seq<K>)
    requires multiset(pool) + multiset(placed) == multiset(catalog)
    requires NoDuplicates(catalog)
    ensures |pool| + |placed| == |catalog|
    ensures forall k :: multiset(pool)[k] + multiset(placed)[k] <= 1
  {
    NoDuplicatesOnce(catalog);
    assert |multiset(pool) + multiset(placed)| == |multiset(catalog)|;
    forall k ensures multiset(pool)[k] + multiset(placed)[k] <= 1 {
      assert (multiset(pool) + multiset(placed))[k] == multiset(catalog)[k];
    }
  }

  /**
   * Taking the element with key `k` out of a pool and recording `k` among the
   * placed keys keeps the pool and the placements a partition of the catalog.
   */
  lemma TakeKey<T(!new), K>(pool: seq<T>, key: T -> K, k: K, placed: multiset<K>, catalog: seq<K>)
    requires multiset(Keys(pool, key)) + placed == multiset(catalog)
    requires NoDuplicates(catalog)
    requires k in Keys(pool, key)
    ensures multiset(Keys(Without(pool, key, {k}), key)) + (placed + multiset{k}) == multiset(catalog)
  {
    WithoutKeyCount(pool, key, {k});
    NoDuplicatesOnce(catalog);
    var before := multiset(Keys(pool, key));
    assert (before + placed)[k] == multiset(catalog)[k];
    forall j ensures (multiset(Keys(Without(pool, key, {k}), key)) + (placed + multiset{k}))[j] == multiset(catalog)[j] {
      assert (before + placed)[j] == multiset(catalog)[j];
    }
  }

  /**
   * Filtering out a key that a pool holds exactly once removes one
   * occurrence of it and nothing else.
   */
  lemma ReturnKey<T(!new), K>(pool: seq<T>, key: T -> K, k: K)
    requires k in Keys(pool, key) && multiset(Keys(pool, key))[k] <= 1
    ensures multiset(Keys(Without(pool, key, {k}), key)) + multiset{k} == multiset(Keys(pool, key))
  {
    WithoutKeyCount(pool, key, {k});
    AddBack(multiset(Keys(Without(pool, key, {k}), key)), multiset(Keys(pool, key)), k);
  }

  /** A multiset that lacks only the one occurrence of `k` in `b`, with `k` added back, is `b`. */
  lemma AddBack<K>(a: multiset<K>, b: multiset<K>, k: K)
    requires b[k] == 1
    requires forall j :: a[j] == if j == k then 0 else b[j]
    ensures a + multiset{k} == b
  {
    forall j ensures (a + multiset{k})[j] == b[j] {
      if j == k {
        assert a[j] == 0;
      }
    }
  }

  /** An element's key is among the pool's keys. */
  lemma KeyOf<T, K>(s: seq<T>, key: T -> K, x: T)
    requires x in s
    ensures key(x) in Keys(s, key)
  {
    var i :| 0 <= i < |s| && s[i] == x;
    assert Keys(s, key)[i] == key(x);
  }

  /** A key of the pool belongs to one of its elements. */
  lemma KeyOwner<T, K>(s: seq<T>, key: T -> K, k: K) returns (x: T)
    requires k in Keys(s, key)
    ensures x in s && key(x) == k
  {
    var i :| 0 <= i < |s| && Keys(s, key)[i] == k;
    x := s[i];
  }

  /** Two elements of a catalog with distinct keys that share a key are the same element. */
  lemma KeyIdentifies<T, K>(s: seq<T>, key: T -> K, x: T, y: T)
    requires NoDuplicates(Keys(s, key))
    requires x in s && y in s && key(x) == key(y)
    ensures x == y
  {
    var i :| 0 <= i < |s| && s[i] == x;
    var j :| 0 <= j < |s| && s[j] == y;
    assert Keys(s, key)[i] == Keys(s, key)[j];
  }

  /**
   * Moving `x` from one pool to the end of another, by filtering its key out
   * of the first, keeps the two pools a permutation of a catalog whose keys
   * are distinct.
   */
  lemma MoveElement<T(!new), K>(from: seq<T>, to: seq<T>, x: T, key: T -> K, catalog: seq<T>)
    requires multiset(from) + multiset(to) == multiset(catalog)
    requires NoDuplicates(Keys(catalog, key))
    requires x in from
    ensures multiset(Without(from, key, {key(x)})) + multiset(to + [x]) == multiset(catalog)
  {
    WithoutCount(from, key, {key(x)});
    assert NoDuplicates(catalog) by {
      forall i, j | 0 <= i < j < |catalog| ensures catalog[i] != catalog[j] {
        assert Keys(catalog, key)[i] != Keys(catalog, key)[j];
      }
    }
    NoDuplicatesOnce(catalog);
    assert (multiset(from) + multiset(to))[x] == multiset(catalog)[x];
    forall y ensures (multiset(Without(from, key, {key(x)})) + multiset(to + [x]))[y] == multiset(catalog)[y] {
      assert (multiset(from) + multiset(to))[y] == multiset(catalog)[y];
      if key(y) == key(x) && y != x && y in from {
        KeyIdentifies(catalog, key, x, y);
      }
    }
  }

  /** A sequence in which nothing occurs twice has no repeated element. */
  lemma OnceDistinct<T>(s: seq<T>)
    requires forall x :: multiset(s)[x] <= 1
    ensures NoDuplicates(s)
  {
    forall i, j | 0 <= i < j < |s| ensures s[i] != s[j] {
      assert s == s[..j] + s[j..];
      assert multiset(s) == multiset(s[..j]) + multiset(s[j..]);
      assert s[i] in s[..j] && s[j] in s[j..];
      assert multiset(s[..j])[s[i]] >= 1 && multiset(s[j..])[s[j]] >= 1;
      assert multiset(s)[s[i]] == multiset(s[..j])[s[i]] + multiset(s[j..])[s[i]];
    }
  }

  /** Distinct members of a sequence with distinct keys have distinct keys. */
  lemma KeysDiffer<T, K>(s: seq<T>, key: T -> K, x: T, y: T)
    requires NoDuplicates(Keys(s, key))
    requires x in s && y in s && x != y
    ensures key(x) != key(y)
  {
    var ix :| 0 <= ix < |s| && s[ix] == x;
    var iy :| 0 <= iy < |s| && s[iy] == y;
    assert Keys(s, key)[ix] == key(x) && Keys(s, key)[iy] == key(y);
  }

  /**
   * A pool that, together with another, is a permutation of a catalog with
   * distinct keys has distinct keys itself.
   */
  lemma DistinctPart<T(!new), K>(part: seq<T>, rest: seq<T>, key: T -> K, catalog: seq<T>)
    requires multiset(part) + multiset(rest) == multiset(catalog)
    requires NoDuplicates(Keys(catalog, key))
    ensures NoDuplicates(Keys(part, key))
  {
    assert NoDuplicates(catalog) by {
      forall i, j | 0 <= i < j < |catalog| ensures catalog[i] != catalog[j] {
        assert Keys(catalog, key)[i] != Keys(catalog, key)[j];
      }
    }
    NoDuplicatesOnce(catalog);
    forall x ensures multiset(part)[x] <= 1 {
      assert (multiset(part) + multiset(rest))[x] == multiset(catalog)[x];
    }
    OnceDistinct(part);
    forall i, j | 0 <= i < j < |part| ensures Keys(part, key)[i] != Keys(part, key)[j] {
      assert part[i] in multiset(catalog) && part[j] in multiset(catalog);
      KeysDiffer(catalog, key, part[i], part[j]);
    }
  }

  /** A sequence is its prefix, the element at `i` and its suffix. */
  lemma SplitAt<T>(s: seq<T>, i: nat)
    requires i < |s|
    ensures s[..i] + [s[i]] + s[i + 1..] == s
  {
  }

  /** In a pool with distinct keys, no other element shares the key of the element at `i`. */
  lemma KeyElsewhere<T, K>(s: seq<T>, i: nat, key: T -> K, y: T)
    requires NoDuplicates(Keys(s, key)) && i < |s|
    requires y in s[..i] || y in s[i + 1..]
    ensures key(y) != key(s[i])
  {
    var k :| 0 <= k < |s| && k != i && s[k] == y;
    assert Keys(s, key)[k] == key(y) && Keys(s, key)[i] == key(s[i]);
  }

  /**
   * In a pool with distinct keys, removing the key of the element at `i`
   * removes exactly that element and keeps the others in their order.
   */
  lemma RemoveAt<T(!new), K>(s: seq<T>, i: nat, key: T -> K)
    requires NoDuplicates(Keys(s, key)) && i < |s|
    ensures Without(s, key, {key(s[i])}) == s[..i] + s[i + 1..]
  {
    var before, after := s[..i], s[i + 1..];
    SplitAt(s, i);
    forall y | y in before ensures key(y) != key(s[i]) {
      KeyElsewhere(s, i, key, y);
    }
    forall y | y in after ensures key(y) != key(s[i]) {
      KeyElsewhere(s, i, key, y);
    }
    WithoutSplit(before, s[i], after, key);
  }

  /** `filter(p).length`: the number of elements that satisfy `p`. */
  function CountWhere<T>(s: seq<T>, p: T -> bool): (n: nat)
    ensures n <= |s|
    ensures n == |s| <==> forall i :: 0 <= i < |s| ==> p(s[i])
  {
    if s == [] then 0
    else
      var rest := CountWhere(s[1..], p);
      assert forall i :: 1 <= i < |s| ==> s[1..][i - 1] == s[i];
      (if p(s[0]) then 1 else 0) + rest
  }
}
