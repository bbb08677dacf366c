/**
  The calendar marking of `get_filled_days_for_employee`: the dates of a month on
  which some cell of the employee's block (a project column or the absence
  column) holds a value.
 */
module FilledDays {
  import opened Calendar
  import opened Strings
  import opened Optional
  import opened Sheets
  import opened DateRows
  import opened Layout
  import opened Months
  import opened Writer

  /** `v not in (None, "", 0)` for some cell of row r inside the block, the absence column included. */
  ghost predicate RowFilled(sh: Sheet, b: Block, r: nat) {
    exists c :: b.InBlock(c) && Occupied(Value(sh, r, c))
  }

  /** Row r holds, in column C, a date of the month `month` belongs to. */
  predicate InMonthRow(sh: Sheet, r: nat, month: ValidDate) {
    var dv := AsDate(Value(sh, r, DateCol));
    dv.Some? && dv.value.year == month.year && dv.value.month == month.month
  }

  /** The dates of the filled rows of the month among rows lo .. hi - 1. */
  ghost function FilledRows(sh: Sheet, b: Block, month: ValidDate, lo: nat, hi: nat): set<ValidDate> {
    set r | lo <= r < hi && InMonthRow(sh, r, month) && RowFilled(sh, b, r) :: AsDate(Value(sh, r, DateCol)).value
  }

  /**
    The specification of `get_filled_days_for_employee`: nothing for a blank name,
    a missing month sheet or a missing block; otherwise the dates of the month in
    rows 5 .. `max_row` whose block cells are not all empty.
   */
  ghost function FilledDaysOf(wb: map<string, Sheet>, emp: string, month: ValidDate): (days: set<ValidDate>)
    ensures forall d :: d in days ==> d.year == month.year && d.month == month.month
  {
    var e := Strip(emp);
    if e == "" then {}
    else
      match MonthSheetOf(wb, month)
      case None => {}
      case Some(nm) =>
        match BlockOf(wb[nm], e)
        case None => {}
        case Some(b) => FilledRows(wb[nm], b, month, DateFirstRow, wb[nm].maxRow + 1)
  }

  /** Taking one more row adds its date exactly when the row is of the month and filled. */
  lemma FilledRowsStep(sh: Sheet, b: Block, month: ValidDate, lo: nat, hi: nat)
    requires lo <= hi
    ensures FilledRows(sh, b, month, lo, hi + 1) ==
      FilledRows(sh, b, month, lo, hi)
      + if InMonthRow(sh, hi, month) && RowFilled(sh, b, hi) then {AsDate(Value(sh, hi, DateCol)).value} else {}
  {
  }

  /**
    With the month sheet and the block found, a date is marked exactly when it lies
    in the month and some row from 5 to `max_row` holds it with a filled block cell.
   */
  lemma FilledDayIff(wb: map<string, Sheet>, emp: string, month: ValidDate, nm: string, b: Block, d: ValidDate)
    requires MonthSheetOf(wb, month) == Some(nm)
    requires BlockOf(wb[nm], Strip(emp)) == Some(b)
    ensures d in FilledDaysOf(wb, emp, month) <==>
      d.year == month.year && d.month == month.month
      && exists r :: DateFirstRow <= r <= wb[nm].maxRow && HoldsDate(wb[nm], d, r) && RowFilled(wb[nm], b, r)
  {
    BlockOfBounds(wb[nm], Strip(emp));
    var sh := wb[nm];
    var days := FilledRows(sh, b, month, DateFirstRow, sh.maxRow + 1);
    assert FilledDaysOf(wb, emp, month) == days;
    if d in days {
      var r :| DateFirstRow <= r < sh.maxRow + 1 && InMonthRow(sh, r, month) && RowFilled(sh, b, r)
        && AsDate(Value(sh, r, DateCol)).value == d;
      assert HoldsDate(sh, d, r);
    }
    if d.year == month.year && d.month == month.month
      && exists r :: DateFirstRow <= r <= sh.maxRow && HoldsDate(sh, d, r) && RowFilled(sh, b, r)
    {
      var r :| DateFirstRow <= r <= sh.maxRow && HoldsDate(sh, d, r) && RowFilled(sh, b, r);
      assert InMonthRow(sh, r, month);
      assert AsDate(Value(sh, r, DateCol)).value == d;
    }
  }

  /**
    A booking that succeeds and writes a non-empty value (an absence type that is
    not "", or hours other than 0) marks its date in the calendar of its month.
   */
  lemma BookedDayIsFilled(wb: map<string, Sheet>, dt: ValidDate, emp: string, mode: string,
                          proj: string, hrs: Number, absType: string, month: ValidDate)
    requires WriteDay(wb, dt, emp, mode, proj, hrs, absType).ok
    requires mode == AbsenceMode ==> absType != ""
    requires mode != AbsenceMode ==> hrs.value != 0.0
    requires month.year == dt.year && month.month == dt.month
    ensures dt in FilledDaysOf(WriteDay(wb, dt, emp, mode, proj, hrs, absType).sheets, emp, month)
  {
    var o := WriteDay(wb, dt, emp, mode, proj, hrs, absType);
    WriteDayOutcome(wb, dt, emp, mode, proj, hrs, absType);
    var nm := MonthSheetOf(wb, dt).value;
    var sh := wb[nm];
    var row := DateRowOf(sh, dt);
    var b := BlockOf(sh, emp).value;
    DateRowIsFirstMatch(sh, dt);
    var sh' := o.sheets[nm];
    var c: nat;
    if mode == AbsenceMode {
      AbsenceEffect(wb, dt, emp, proj, hrs, absType, nm, row, b);
      c := b.AbsCol();
    } else {
      c := ProjectColOf(sh, b, NormalizeKey(proj));
      ProjectEffect(wb, dt, emp, mode, proj, hrs, absType, nm, row, b, c);
    }
    assert b.InBlock(c) && Occupied(Value(sh', row, c));
    LayoutSurvivesWrite(sh, sh', dt, emp, row, b);
    DateRowIsFirstMatch(sh', dt);
    StripIdempotent(emp);
    assert NormalizeKey(Strip(emp)) == NormalizeKey(emp);
    assert BlockOf(sh', Strip(emp)) == BlockOf(sh', emp);
    MonthSheetByNames(wb, o.sheets, dt);
    assert MonthSheetOf(o.sheets, month) == Some(nm);
    FilledDayIff(o.sheets, emp, month, nm, b, dt);
  }

  /** The inner loop of `get_filled_days_for_employee`: scan the block's cells of row r, stopping at the first filled one. */
  method RowIsFilled(sh: Sheet, b: Block, r: nat) returns (filled: bool)
    ensures filled == RowFilled(sh, b, r)
  {
    for c := b.startCol to b.startCol + b.width
      invariant forall k :: b.startCol <= k < c ==> !Occupied(Value(sh, r, k))
    {
      if Occupied(Value(sh, r, c)) {
        return true;
      }
    }
    filled := false;
  }

  /** `get_filled_days_for_employee(emp, month)` on an opened workbook. */
  method GetFilledDaysForEmployee(wb: map<string, Sheet>, emp: string, month: ValidDate) returns (filled: set<ValidDate>)
    ensures filled == FilledDaysOf(wb, emp, month)
  {
    var e := Strip(emp);
    if e == "" {
      return {};
    }
    var found := MonthSheetOf(wb, month);
    if found.None? {
      return {};
    }
    var sh := wb[found.value];
    var block := FindEmployeeBlock(sh, e);
    if block.None? {
      return {};
    }
    var b := block.value;
    filled := {};
    var maxRow := sh.maxRow;
    var r := DateFirstRow;
    while r <= maxRow
      invariant DateFirstRow <= r <= Max(DateFirstRow, maxRow + 1)
      invariant filled == FilledRows(sh, b, month, DateFirstRow, r)
      decreases maxRow as int + 1 - r
    {
      FilledRowsStep(sh, b, month, DateFirstRow, r);
      var dv := AsDate(Value(sh, r, DateCol));
      if dv.Some? && dv.value.year == month.year && dv.value.month == month.month {
        var hit := RowIsFilled(sh, b, r);
        if hit {
          filled := filled + {dv.value};
        }
      }
      r := r + 1;
    }
  }
}
