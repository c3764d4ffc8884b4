/**
 * The cyclic problem index shared by the connector and synthesis exercises:
 * `setProblemIndex(prev => (prev + 1) % problems.length)`.
 */
module Problems {

  /** The index the Next Problem button selects: the following problem, wrapping after the last. */
  function NextIndex(i: nat, n: nat): (j: nat)
    requires i < n
    ensures j < n
    ensures j == if i == n - 1 then 0 else i + 1
  {
    (i + 1) % n
  }

  /** The index shown after `k` presses of Next Problem, starting from `i`. */
  function Advance(i: nat, n: nat, k: nat): (j: nat)
    requires i < n
    ensures j < n
  {
    if k == 0 then i else NextIndex(Advance(i, n, k - 1), n)
  }

  /** From the first problem, the j-th press shows problem j: every problem is reached. */
  lemma {:induction false} AdvanceVisitsEvery(n: nat, j: nat)
    requires j < n
    ensures Advance(0, n, j) == j
  {
    if j > 0 {
      AdvanceVisitsEvery(n, j - 1);
    }
  }

  /** The n-th press returns to the first problem. */
  lemma AdvanceWraps(n: nat)
    requires 0 < n
    ensures Advance(0, n, n) == 0
  {
    AdvanceVisitsEvery(n, n - 1);
  }
}
