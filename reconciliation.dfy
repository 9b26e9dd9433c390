/**
  Copy-count reconciliation of the book-update endpoint: when a book's total number of
  copies is changed, its number of available copies is recomputed from the stored pair
  (total, available) so that copies on loan stay accounted for.
 */
module Reconciliation {

  function Max(a: int, b: int): int { if a >= b then a else b }

  function Min(a: int, b: int): int { if a <= b then a else b }

  /** Copies currently on loan: those counted in the total but not available. */
  function Borrowed(total: int, available: int): int { total - available }

  /** The stored invariant of a book row: available copies lie between 0 and the total. */
  predicate Consistent(total: int, available: int) {
    0 <= available <= total
  }

  /**
    The new available count after the total goes from `oldTotal` to `newTotal`.
    An increase makes the new copies available at once; a decrease shrinks the available
    count to what is left once the borrowed copies are set aside, never below zero and
    never above the old available count; an unchanged total keeps the available count.
   */
  function ReconcileAvailable(oldTotal: int, oldAvailable: int, newTotal: int): (r: int)
    // a consistent book stays consistent for every non-negative new total
    ensures Consistent(oldTotal, oldAvailable) && 0 <= newTotal ==> Consistent(newTotal, r)
    // while the new total still covers the loans, the number on loan is unchanged
    ensures newTotal >= Borrowed(oldTotal, oldAvailable) ==>
              Borrowed(newTotal, r) == Borrowed(oldTotal, oldAvailable)
    // a total below the loans is not rejected: nothing is left available
    ensures 0 <= oldAvailable && newTotal < Borrowed(oldTotal, oldAvailable) ==> r == 0
    // shrinking (or keeping) the total never makes more copies available
    ensures 0 <= oldAvailable && newTotal <= oldTotal ==> 0 <= r <= oldAvailable
  {
    var copyDifference := newTotal - oldTotal;
    if copyDifference > 0 then
      oldAvailable + copyDifference
    else if copyDifference < 0 then
      var currentlyBorrowed := oldTotal - oldAvailable;
      var maxPossibleAvailable := newTotal - currentlyBorrowed;
      Max(0, Min(oldAvailable, maxPossibleAvailable))
    else
      oldAvailable
  }

  /** An increase of the total is added in full to the available count. */
  lemma IncreaseAddsDifference(oldTotal: int, oldAvailable: int, newTotal: int)
    requires newTotal > oldTotal
    ensures ReconcileAvailable(oldTotal, oldAvailable, newTotal) == oldAvailable + (newTotal - oldTotal)
  {
  }

  /** An unchanged total leaves the available count as it was. */
  lemma UnchangedTotalKeepsAvailable(total: int, available: int)
    ensures ReconcileAvailable(total, available, total) == available
  {
  }

  /** A decrease clamps the available count between 0 and what remains after the loans. */
  lemma DecreaseClamps(oldTotal: int, oldAvailable: int, newTotal: int)
    requires newTotal < oldTotal
    ensures var r := ReconcileAvailable(oldTotal, oldAvailable, newTotal);
            r == Max(0, Min(oldAvailable, newTotal - Borrowed(oldTotal, oldAvailable))) &&
            0 <= r &&
            (0 <= oldAvailable ==> r <= oldAvailable)
  {
  }

  /**
    Shrinking the total below the copies on loan leaves a row whose total no longer
    covers those loans: the loans the row can still account for drop to the new total.
   */
  lemma ShrinkBelowLoansForgetsLoans(oldTotal: int, oldAvailable: int, newTotal: int)
    requires 0 <= oldAvailable
    requires newTotal < Borrowed(oldTotal, oldAvailable)
    ensures ReconcileAvailable(oldTotal, oldAvailable, newTotal) == 0
    ensures Borrowed(newTotal, ReconcileAvailable(oldTotal, oldAvailable, newTotal)) < Borrowed(oldTotal, oldAvailable)
  {
  }

  /**
    The clamp is lossy: shrinking below the loans and then restoring the old total
    makes more copies available than before, as if some loans had been returned.
   */
  lemma ShrinkThenRestoreOvercounts(oldTotal: int, oldAvailable: int, newTotal: int)
    requires 0 <= oldAvailable
    requires newTotal < Borrowed(oldTotal, oldAvailable)
    ensures ReconcileAvailable(newTotal, ReconcileAvailable(oldTotal, oldAvailable, newTotal), oldTotal) > oldAvailable
  {
  }

  /** Three worked examples: an increase, a decrease with slack, and a decrease below the loans. */
  lemma WorkedExamples()
    ensures ReconcileAvailable(5, 2, 8) == 5
    ensures ReconcileAvailable(10, 7, 8) == 5
    ensures ReconcileAvailable(10, 7, 2) == 0
  {
  }

  /**
    The (total, available) pair after a series of book updates setting the totals in
    `totals` one after the other, starting from (total, available).
   */
  function AfterUpdates(total: int, available: int, totals: seq<int>): (int, int)
    decreases |totals|
  {
    if totals == [] then (total, available)
    else AfterUpdates(totals[0], ReconcileAvailable(total, available, totals[0]), totals[1..])
  }

  /**
    Successive updates whose totals all cover the loans keep the row consistent and the
    loans unchanged; the final available count depends only on the last total.
   */
  lemma {:induction false} SuccessiveUpdatesKeepLoans(total: int, available: int, totals: seq<int>)
    requires Consistent(total, available)
    requires forall k :: 0 <= k < |totals| ==> totals[k] >= Borrowed(total, available)
    ensures var (t, a) := AfterUpdates(total, available, totals);
            Consistent(t, a) && Borrowed(t, a) == Borrowed(total, available)
    ensures totals != [] ==>
              AfterUpdates(total, available, totals).1 == totals[|totals| - 1] - Borrowed(total, available)
    decreases |totals|
  {
    if totals != [] {
      var a1 := ReconcileAvailable(total, available, totals[0]);
      assert Borrowed(totals[0], a1) == Borrowed(total, available);
      SuccessiveUpdatesKeepLoans(totals[0], a1, totals[1..]);
      if |totals| > 1 {
        assert totals[1..][|totals[1..]| - 1] == totals[|totals| - 1];
      }
    }
  }
}
