/**
  The first-match scan that `_find_date_row` and `_find_project_col` both perform:
  try each index from `lo` up to (not including) `hi`, return the first that
  satisfies the test, and return 0 when none does.
 */
module Search {

  function FirstFrom(p: nat -> bool, lo: nat, hi: nat): nat
    decreases hi - lo
  {
    if lo >= hi then 0
    else if p(lo) then lo
    else FirstFrom(p, lo + 1, hi)
  }

  /**
    With indices starting at 1 or later, the result is the least index in
    [lo, hi) that passes the test, and it is 0 exactly when no index passes.
   */
  lemma {:induction false} FirstFromIsFirst(p: nat -> bool, lo: nat, hi: nat)
    requires 1 <= lo
    ensures FirstFrom(p, lo, hi) != 0 ==>
      lo <= FirstFrom(p, lo, hi) < hi && p(FirstFrom(p, lo, hi))
      && forall k :: lo <= k < FirstFrom(p, lo, hi) ==> !p(k)
    ensures FirstFrom(p, lo, hi) == 0 <==> forall k :: lo <= k < hi ==> !p(k)
    decreases hi - lo
  {
    if lo < hi && !p(lo) {
      FirstFromIsFirst(p, lo + 1, hi);
    }
  }

  /** Two tests that agree on [lo, hi) find the same index. */
  lemma {:induction false} FirstFromCongruent(p: nat -> bool, q: nat -> bool, lo: nat, hi: nat)
    requires forall k :: lo <= k < hi ==> p(k) == q(k)
    ensures FirstFrom(p, lo, hi) == FirstFrom(q, lo, hi)
    decreases hi - lo
  {
    if lo < hi {
      FirstFromCongruent(p, q, lo + 1, hi);
    }
  }
}
