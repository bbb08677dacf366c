/**
  The date column of a month sheet: column C holds one date per row from row 5
  on, and `_find_date_row` returns the first row holding the wanted date.
 */
module DateRows {
  import opened Calendar
  import opened Optional
  import opened Sheets
  import opened Search

  /** Row r of column C holds the date dt (a datetime counts by its date). */
  predicate HoldsDate(sh: Sheet, dt: ValidDate, r: nat) {
    AsDate(Value(sh, r, DateCol)) == Some(dt)
  }

  /** The specification of `_find_date_row`: the first row from 5 to `max_row` holding dt, or 0. */
  function DateRowOf(sh: Sheet, dt: ValidDate): nat {
    FirstFrom((r: nat) => HoldsDate(sh, dt, r), DateFirstRow, sh.maxRow + 1)
  }

  /** The row found is the smallest row from 5 on that holds the date; 0 means no row up to `max_row` does. */
  lemma DateRowIsFirstMatch(sh: Sheet, dt: ValidDate)
    ensures DateRowOf(sh, dt) != 0 ==>
      DateFirstRow <= DateRowOf(sh, dt) <= sh.maxRow && HoldsDate(sh, dt, DateRowOf(sh, dt))
      && forall r :: DateFirstRow <= r < DateRowOf(sh, dt) ==> !HoldsDate(sh, dt, r)
    ensures DateRowOf(sh, dt) == 0 <==> forall r :: DateFirstRow <= r <= sh.maxRow ==> !HoldsDate(sh, dt, r)
  {
    var p := (r: nat) => HoldsDate(sh, dt, r);
    FirstFromIsFirst(p, DateFirstRow, sh.maxRow + 1);
    var r0 := DateRowOf(sh, dt);
    forall r | DateFirstRow <= r < r0
      ensures !HoldsDate(sh, dt, r)
    {
      assert !p(r);
    }
    if forall r :: DateFirstRow <= r <= sh.maxRow ==> !HoldsDate(sh, dt, r) {
      forall r | DateFirstRow <= r < sh.maxRow + 1
        ensures !p(r)
      {
      }
    } else {
      var r :| DateFirstRow <= r <= sh.maxRow && HoldsDate(sh, dt, r);
      assert p(r);
    }
  }

  /** Sheets that agree on column C up to the same `max_row` find the same date row. */
  lemma DateRowStable(sh: Sheet, sh': Sheet, dt: ValidDate)
    requires sh'.maxRow == sh.maxRow
    requires forall r :: DateFirstRow <= r <= sh.maxRow ==> Value(sh', r, DateCol) == Value(sh, r, DateCol)
    ensures DateRowOf(sh', dt) == DateRowOf(sh, dt)
  {
    FirstFromCongruent((r: nat) => HoldsDate(sh', dt, r), (r: nat) => HoldsDate(sh, dt, r), DateFirstRow, sh.maxRow + 1);
  }

  /** `_find_date_row(ws, dt)`. */
  method FindDateRow(sh: Sheet, dt: ValidDate) returns (row: nat)
    ensures row == DateRowOf(sh, dt)
  {
    ghost var p := (r: nat) => HoldsDate(sh, dt, r);
    var maxRow := sh.maxRow;
    var r := DateFirstRow;
    while r <= maxRow
      invariant DateFirstRow <= r
      invariant FirstFrom(p, DateFirstRow, sh.maxRow + 1) == FirstFrom(p, r, sh.maxRow + 1)
      decreases maxRow as int + 1 - r
    {
      var dv := AsDate(Value(sh, r, DateCol));
      if dv.Some? && dv.value == dt {
        assert p(r);
        return r;
      }
      assert !p(r);
      r := r + 1;
    }
    return 0;
  }
}
