/**
  Booking one day and a range of days into the month sheets: an absence fills
  the employee's absence column and clears the project columns of that day's
  row; hours go into the project's sub-column and clear the absence column.
 */
module Writer {
  import opened Calendar
  import opened Strings
  import opened Optional
  import opened Sheets
  import opened Layout
  import opened DateRows
  import opened Months
  import opened DateRanges

  /** The mode string that selects an absence; any other mode books hours. */
  const AbsenceMode: string := "ABS"

  /** Whether a booking succeeded, and the month sheets afterwards. */
  datatype Outcome = Outcome(ok: bool, sheets: map<string, Sheet>)

  /** `ws.cell(row, c).value = None` for c = lo .. hi - 1, in that order. */
  function ClearCols(sh: Sheet, row: nat, lo: nat, hi: nat): Sheet
    decreases hi - lo
  {
    if hi <= lo then sh else Put(ClearCols(sh, row, lo, hi - 1), row, hi - 1, Empty)
  }

  /** Clearing empties columns lo .. hi - 1 of the row, keeps every other cell, and grows the bounds to cover them. */
  lemma {:induction false} ClearColsEffect(sh: Sheet, row: nat, lo: nat, hi: nat)
    ensures forall c :: lo <= c < hi ==> Value(ClearCols(sh, row, lo, hi), row, c) == Empty
    ensures forall r: nat, c: nat :: !(r == row && lo <= c < hi) ==> Value(ClearCols(sh, row, lo, hi), r, c) == Value(sh, r, c)
    ensures ClearCols(sh, row, lo, hi).merged == sh.merged
    ensures ClearCols(sh, row, lo, hi).maxRow == if lo < hi then Max(sh.maxRow, row) else sh.maxRow
    ensures ClearCols(sh, row, lo, hi).maxColumn == if lo < hi then Max(sh.maxColumn, hi - 1) else sh.maxColumn
    decreases hi - lo
  {
    if lo < hi {
      ClearColsEffect(sh, row, lo, hi - 1);
      PutEffect(ClearCols(sh, row, lo, hi - 1), row, hi - 1, Empty);
    }
  }

  /** The absence branch of `_write_one_day`: the absence text, then the project columns cleared. */
  function MarkAbsent(sh: Sheet, row: nat, b: Block, absType: string): Sheet {
    ClearCols(Put(sh, row, b.AbsCol(), Str(absType)), row, b.startCol, b.AbsCol())
  }

  /** The project branch of `_write_one_day`: the hours in the project column, then the absence cleared. */
  function BookHours(sh: Sheet, row: nat, b: Block, projCol: nat, hrs: Number): Sheet {
    Put(Put(sh, row, projCol, Num(hrs)), row, b.AbsCol(), Empty)
  }

  /** The specification of `_write_one_day(wb, dt, emp, mode, proj, hrs, abs_type)`. */
  function WriteDay(wb: map<string, Sheet>, dt: ValidDate, emp: string, mode: string,
                    proj: string, hrs: Number, absType: string): Outcome
  {
    match MonthSheetOf(wb, dt)
    case None => Outcome(false, wb)
    case Some(nm) =>
      var sh := wb[nm];
      var row := DateRowOf(sh, dt);
      if row == 0 then Outcome(false, wb)
      else
        match BlockOf(sh, emp)
        case None => Outcome(false, wb)
        case Some(b) =>
          if mode == AbsenceMode then Outcome(true, wb[nm := MarkAbsent(sh, row, b, absType)])
          else
            var pc := ProjectColOf(sh, b, NormalizeKey(proj));
            if pc == 0 then Outcome(false, wb)
            else Outcome(true, wb[nm := BookHours(sh, row, b, pc, hrs)])
  }

  /**
    A booking succeeds exactly when the month sheet, the date row and the employee
    block are found and, for hours, the project column too; a failed booking
    changes nothing.
   */
  lemma WriteDayOutcome(wb: map<string, Sheet>, dt: ValidDate, emp: string, mode: string,
                        proj: string, hrs: Number, absType: string)
    ensures WriteDay(wb, dt, emp, mode, proj, hrs, absType).ok <==>
      MonthSheetOf(wb, dt).Some?
      && DateRowOf(wb[MonthSheetOf(wb, dt).value], dt) != 0
      && BlockOf(wb[MonthSheetOf(wb, dt).value], emp).Some?
      && (mode == AbsenceMode
          || ProjectColOf(wb[MonthSheetOf(wb, dt).value], BlockOf(wb[MonthSheetOf(wb, dt).value], emp).value, NormalizeKey(proj)) != 0)
    ensures !WriteDay(wb, dt, emp, mode, proj, hrs, absType).ok ==> WriteDay(wb, dt, emp, mode, proj, hrs, absType).sheets == wb
    ensures WriteDay(wb, dt, emp, mode, proj, hrs, absType).sheets.Keys == wb.Keys
    ensures NormalizeKey(emp) == "" ==> !WriteDay(wb, dt, emp, mode, proj, hrs, absType).ok
  {
    if MonthSheetOf(wb, dt).Some? {
      BlockOfBounds(wb[MonthSheetOf(wb, dt).value], emp);
    }
  }

  /** Only cells of the given row inside the block differ between the two sheets. */
  ghost predicate OnlyRowOfBlockChanged(before: Sheet, after: Sheet, row: nat, b: Block) {
    after.merged == before.merged
    && after.maxRow == before.maxRow
    && after.maxColumn == Max(before.maxColumn, b.AbsCol())
    && forall r: nat, c: nat :: !(r == row && b.InBlock(c)) ==> Value(after, r, c) == Value(before, r, c)
  }

  /** The row holds the absence text in the absence column and nothing in the project columns. */
  ghost predicate AbsentIn(sh: Sheet, row: nat, b: Block, absType: string) {
    Value(sh, row, b.AbsCol()) == Str(absType)
    && forall c :: b.IsProjectCol(c) ==> Value(sh, row, c) == Empty
  }

  /** The row holds the hours in the project column and nothing in the absence column; other project columns are untouched. */
  ghost predicate BookedIn(before: Sheet, after: Sheet, row: nat, b: Block, projCol: nat, hrs: Number) {
    Value(after, row, projCol) == Num(hrs)
    && Value(after, row, b.AbsCol()) == Empty
    && forall c :: b.IsProjectCol(c) && c != projCol ==> Value(after, row, c) == Value(before, row, c)
  }

  /** The sheets other than nm are unchanged, and no sheet is added or removed. */
  ghost predicate OtherSheetsKept(before: map<string, Sheet>, after: map<string, Sheet>, nm: string) {
    after.Keys == before.Keys
    && forall n :: n in before && n != nm ==> after[n] == before[n]
  }

  /** On one sheet: the absence fills the absence cell and clears the project cells of the row, and nothing else. */
  lemma MarkAbsentEffect(sh: Sheet, row: nat, b: Block, absType: string)
    requires row <= sh.maxRow
    ensures AbsentIn(MarkAbsent(sh, row, b, absType), row, b, absType)
    ensures OnlyRowOfBlockChanged(sh, MarkAbsent(sh, row, b, absType), row, b)
  {
    var sh1 := Put(sh, row, b.AbsCol(), Str(absType));
    ClearColsEffect(sh1, row, b.startCol, b.AbsCol());
  }

  /** On one sheet: the hours fill the project cell and clear the absence cell of the row, and nothing else. */
  lemma BookHoursEffect(sh: Sheet, row: nat, b: Block, pc: nat, hrs: Number)
    requires row <= sh.maxRow && b.IsProjectCol(pc)
    ensures BookedIn(sh, BookHours(sh, row, b, pc, hrs), row, b, pc, hrs)
    ensures OnlyRowOfBlockChanged(sh, BookHours(sh, row, b, pc, hrs), row, b)
  {
  }

  /** An absence, once the day's row and the employee's block are found, fills exactly the absence cell and clears the project cells of that row. */
  lemma AbsenceEffect(wb: map<string, Sheet>, dt: ValidDate, emp: string, proj: string, hrs: Number, absType: string,
                      nm: string, row: nat, b: Block)
    requires MonthSheetOf(wb, dt) == Some(nm)
    requires DateRowOf(wb[nm], dt) == row && row != 0
    requires BlockOf(wb[nm], emp) == Some(b)
    ensures WriteDay(wb, dt, emp, AbsenceMode, proj, hrs, absType).ok
    ensures OtherSheetsKept(wb, WriteDay(wb, dt, emp, AbsenceMode, proj, hrs, absType).sheets, nm)
    ensures AbsentIn(WriteDay(wb, dt, emp, AbsenceMode, proj, hrs, absType).sheets[nm], row, b, absType)
    ensures OnlyRowOfBlockChanged(wb[nm], WriteDay(wb, dt, emp, AbsenceMode, proj, hrs, absType).sheets[nm], row, b)
  {
    DateRowIsFirstMatch(wb[nm], dt);
    MarkAbsentEffect(wb[nm], row, b, absType);
    assert WriteDay(wb, dt, emp, AbsenceMode, proj, hrs, absType).sheets == wb[nm := MarkAbsent(wb[nm], row, b, absType)];
  }

  /** Booked hours, once the row, the block and the project column are found, fill that cell and clear the absence cell of that row. */
  lemma ProjectEffect(wb: map<string, Sheet>, dt: ValidDate, emp: string, mode: string, proj: string, hrs: Number, absType: string,
                      nm: string, row: nat, b: Block, pc: nat)
    requires mode != AbsenceMode
    requires MonthSheetOf(wb, dt) == Some(nm)
    requires DateRowOf(wb[nm], dt) == row && row != 0
    requires BlockOf(wb[nm], emp) == Some(b)
    requires ProjectColOf(wb[nm], b, NormalizeKey(proj)) == pc && pc != 0
    ensures WriteDay(wb, dt, emp, mode, proj, hrs, absType).ok
    ensures b.IsProjectCol(pc)
    ensures OtherSheetsKept(wb, WriteDay(wb, dt, emp, mode, proj, hrs, absType).sheets, nm)
    ensures BookedIn(wb[nm], WriteDay(wb, dt, emp, mode, proj, hrs, absType).sheets[nm], row, b, pc, hrs)
    ensures OnlyRowOfBlockChanged(wb[nm], WriteDay(wb, dt, emp, mode, proj, hrs, absType).sheets[nm], row, b)
  {
    DateRowIsFirstMatch(wb[nm], dt);
    ProjectColIsFirstMatch(wb[nm], b, NormalizeKey(proj));
    BookHoursEffect(wb[nm], row, b, pc, hrs);
    assert WriteDay(wb, dt, emp, mode, proj, hrs, absType).sheets == wb[nm := BookHours(wb[nm], row, b, pc, hrs)];
  }

  lemma PutTwice(sh: Sheet, r: nat, c: nat, v: Cell)
    ensures Put(Put(sh, r, c, v), r, c, v) == Put(sh, r, c, v)
  {
  }

  lemma PutSwap(sh: Sheet, r1: nat, c1: nat, v1: Cell, r2: nat, c2: nat, v2: Cell)
    requires (r1, c1) != (r2, c2)
    ensures Put(Put(sh, r1, c1, v1), r2, c2, v2) == Put(Put(sh, r2, c2, v2), r1, c1, v1)
  {
  }

  /** A write outside the cleared columns can be done before or after clearing them. */
  lemma {:induction false} PutClearSwap(sh: Sheet, row: nat, lo: nat, hi: nat, c: nat, v: Cell)
    requires !(lo <= c < hi)
    ensures Put(ClearCols(sh, row, lo, hi), row, c, v) == ClearCols(Put(sh, row, c, v), row, lo, hi)
    decreases hi - lo
  {
    if lo < hi {
      PutClearSwap(sh, row, lo, hi - 1, c, v);
      PutClearStep(sh, row, lo, hi, c, v);
    }
  }

  lemma PutClearStep(sh: Sheet, row: nat, lo: nat, hi: nat, c: nat, v: Cell)
    requires lo < hi && !(lo <= c < hi)
    requires Put(ClearCols(sh, row, lo, hi - 1), row, c, v) == ClearCols(Put(sh, row, c, v), row, lo, hi - 1)
    ensures Put(ClearCols(sh, row, lo, hi), row, c, v) == ClearCols(Put(sh, row, c, v), row, lo, hi)
  {
    var cleared := ClearCols(sh, row, lo, hi - 1);
    var moved := ClearCols(Put(sh, row, c, v), row, lo, hi - 1);
    var lhs := Put(ClearCols(sh, row, lo, hi), row, c, v);
    var rhs := ClearCols(Put(sh, row, c, v), row, lo, hi);
    assert lhs.cells == rhs.cells by {
      assert lhs.cells == cleared.cells[(row, hi - 1) := Empty][(row, c) := v];
      assert rhs.cells == cleared.cells[(row, c) := v][(row, hi - 1) := Empty];
    }
  }

  /** Clearing the same columns twice is clearing them once. */
  lemma {:induction false} ClearColsTwice(sh: Sheet, row: nat, lo: nat, hi: nat)
    ensures ClearCols(ClearCols(sh, row, lo, hi), row, lo, hi) == ClearCols(sh, row, lo, hi)
    decreases hi - lo
  {
    if lo < hi {
      var inner := ClearCols(sh, row, lo, hi - 1);
      var once := Put(inner, row, hi - 1, Empty);
      assert ClearCols(once, row, lo, hi - 1) == Put(ClearCols(inner, row, lo, hi - 1), row, hi - 1, Empty) by {
        PutClearSwap(inner, row, lo, hi - 1, hi - 1, Empty);
      }
      assert ClearCols(inner, row, lo, hi - 1) == inner by {
        ClearColsTwice(sh, row, lo, hi - 1);
      }
      assert Put(once, row, hi - 1, Empty) == once by {
        PutTwice(inner, row, hi - 1, Empty);
      }
    }
  }

  lemma MarkAbsentTwice(sh: Sheet, row: nat, b: Block, absType: string)
    ensures MarkAbsent(MarkAbsent(sh, row, b, absType), row, b, absType) == MarkAbsent(sh, row, b, absType)
  {
    var a := b.AbsCol();
    var sh1 := Put(sh, row, a, Str(absType));
    PutClearSwap(sh1, row, b.startCol, a, a, Str(absType));
    PutTwice(sh, row, a, Str(absType));
    ClearColsTwice(sh1, row, b.startCol, a);
  }

  lemma BookHoursTwice(sh: Sheet, row: nat, b: Block, pc: nat, hrs: Number)
    requires pc != b.AbsCol()
    ensures BookHours(BookHours(sh, row, b, pc, hrs), row, b, pc, hrs) == BookHours(sh, row, b, pc, hrs)
  {
    var a := b.AbsCol();
    var sh1 := Put(sh, row, pc, Num(hrs));
    var sh2 := Put(sh1, row, a, Empty);
    PutSwap(sh1, row, a, Empty, row, pc, Num(hrs));
    PutTwice(sh, row, pc, Num(hrs));
    PutTwice(sh1, row, a, Empty);
  }

  /** The layout the booking looked up survives the booking: same sheet, date row, block and project column. */
  lemma LayoutSurvivesWrite(sh: Sheet, sh': Sheet, dt: ValidDate, emp: string, row: nat, b: Block)
    requires DateRowOf(sh, dt) == row && row != 0
    requires BlockOf(sh, emp) == Some(b)
    requires OnlyRowOfBlockChanged(sh, sh', row, b)
    ensures DateRowOf(sh', dt) == row
    ensures BlockOf(sh', emp) == Some(b)
    ensures forall key :: ProjectColOf(sh', b, key) == ProjectColOf(sh, b, key)
  {
    DateRowIsFirstMatch(sh, dt);
    BlockOfBounds(sh, emp);
    forall r | DateFirstRow <= r <= sh.maxRow
      ensures Value(sh', r, DateCol) == Value(sh, r, DateCol)
    {
      assert !b.InBlock(DateCol);
    }
    DateRowStable(sh, sh', dt);
    assert SameHeader(sh, sh');
    BlockOfStable(sh, sh', emp);
    forall key
      ensures ProjectColOf(sh', b, key) == ProjectColOf(sh, b, key)
    {
      ProjectColStable(sh, sh', b, key);
    }
  }

  /** Booking the same day twice leaves the sheets as booking it once, with the same outcome. */
  lemma WriteDayIdempotent(wb: map<string, Sheet>, dt: ValidDate, emp: string, mode: string,
                           proj: string, hrs: Number, absType: string)
    ensures WriteDay(WriteDay(wb, dt, emp, mode, proj, hrs, absType).sheets, dt, emp, mode, proj, hrs, absType)
      == WriteDay(wb, dt, emp, mode, proj, hrs, absType)
  {
    var o := WriteDay(wb, dt, emp, mode, proj, hrs, absType);
    if o.ok {
      var nm := MonthSheetOf(wb, dt).value;
      var sh := wb[nm];
      var row := DateRowOf(sh, dt);
      var b := BlockOf(sh, emp).value;
      MonthSheetByNames(wb, o.sheets, dt);
      var sh' := o.sheets[nm];
      if mode == AbsenceMode {
        AbsenceEffect(wb, dt, emp, proj, hrs, absType, nm, row, b);
        LayoutSurvivesWrite(sh, sh', dt, emp, row, b);
        MarkAbsentTwice(sh, row, b, absType);
        assert o.sheets[nm := MarkAbsent(sh', row, b, absType)] == o.sheets;
      } else {
        var pc := ProjectColOf(sh, b, NormalizeKey(proj));
        ProjectEffect(wb, dt, emp, mode, proj, hrs, absType, nm, row, b, pc);
        LayoutSurvivesWrite(sh, sh', dt, emp, row, b);
        BookHoursTwice(sh, row, b, pc, hrs);
        assert o.sheets[nm := BookHours(sh', row, b, pc, hrs)] == o.sheets;
      }
    }
  }

  /** Every booking leaves column C alone and changes only cells in the row holding the booked date. */
  lemma WriteDayTouchesOnlyDateRow(wb: map<string, Sheet>, dt: ValidDate, emp: string, mode: string,
                                   proj: string, hrs: Number, absType: string, n: string, r: nat, c: nat)
    requires n in wb
    ensures n in WriteDay(wb, dt, emp, mode, proj, hrs, absType).sheets
    ensures Value(WriteDay(wb, dt, emp, mode, proj, hrs, absType).sheets[n], r, DateCol) == Value(wb[n], r, DateCol)
    ensures Value(WriteDay(wb, dt, emp, mode, proj, hrs, absType).sheets[n], r, c) != Value(wb[n], r, c) ==>
      HoldsDate(wb[n], dt, r)
  {
    var o := WriteDay(wb, dt, emp, mode, proj, hrs, absType);
    WriteDayOutcome(wb, dt, emp, mode, proj, hrs, absType);
    if o.ok {
      var nm := MonthSheetOf(wb, dt).value;
      var row := DateRowOf(wb[nm], dt);
      var b := BlockOf(wb[nm], emp).value;
      BlockOfBounds(wb[nm], emp);
      DateRowIsFirstMatch(wb[nm], dt);
      if mode == AbsenceMode {
        AbsenceEffect(wb, dt, emp, proj, hrs, absType, nm, row, b);
      } else {
        ProjectEffect(wb, dt, emp, mode, proj, hrs, absType, nm, row, b, ProjectColOf(wb[nm], b, NormalizeKey(proj)));
      }
      assert !b.InBlock(DateCol);
    }
  }

  /** The running result of `write_range`: the sheets and the `ok` / `fail` counts so far. */
  datatype Tally = Tally(sheets: map<string, Sheet>, ok: nat, fail: nat)

  /** One attempted date: book it and count the outcome. */
  function Book(t: Tally, d: ValidDate, emp: string, mode: string, proj: string, hrs: Number, absType: string): Tally {
    var o := WriteDay(t.sheets, d, emp, mode, proj, hrs, absType);
    if o.ok then Tally(o.sheets, t.ok + 1, t.fail) else Tally(o.sheets, t.ok, t.fail + 1)
  }

  /** Booking the dates ds one after the other, earliest first. */
  function ApplyDays(t: Tally, ds: seq<ValidDate>, emp: string, mode: string,
                     proj: string, hrs: Number, absType: string): Tally
    decreases |ds|
  {
    if ds == [] then t
    else ApplyDays(Book(t, ds[0], emp, mode, proj, hrs, absType), ds[1..], emp, mode, proj, hrs, absType)
  }

  /** Every attempted date counts once, as a success or as a failure, and no sheet is added or removed. */
  lemma {:induction false} ApplyDaysCounts(t: Tally, ds: seq<ValidDate>, emp: string, mode: string,
                                           proj: string, hrs: Number, absType: string)
    ensures ApplyDays(t, ds, emp, mode, proj, hrs, absType).ok + ApplyDays(t, ds, emp, mode, proj, hrs, absType).fail
      == t.ok + t.fail + |ds|
    ensures ApplyDays(t, ds, emp, mode, proj, hrs, absType).sheets.Keys == t.sheets.Keys
    decreases |ds|
  {
    if ds != [] {
      WriteDayOutcome(t.sheets, ds[0], emp, mode, proj, hrs, absType);
      ApplyDaysCounts(Book(t, ds[0], emp, mode, proj, hrs, absType), ds[1..], emp, mode, proj, hrs, absType);
    }
  }

  /** A row holding a date that is not attempted is never touched. */
  lemma {:induction false} UnattemptedRowKept(t: Tally, ds: seq<ValidDate>, emp: string, mode: string,
                                              proj: string, hrs: Number, absType: string,
                                              n: string, r: nat, e: ValidDate, c: nat)
    requires n in t.sheets && HoldsDate(t.sheets[n], e, r) && e !in ds
    ensures n in ApplyDays(t, ds, emp, mode, proj, hrs, absType).sheets
    ensures Value(ApplyDays(t, ds, emp, mode, proj, hrs, absType).sheets[n], r, c) == Value(t.sheets[n], r, c)
    ensures HoldsDate(ApplyDays(t, ds, emp, mode, proj, hrs, absType).sheets[n], e, r)
    decreases |ds|
  {
    if ds != [] {
      var d := ds[0];
      assert e !in ds[1..];
      WriteDayTouchesOnlyDateRow(t.sheets, d, emp, mode, proj, hrs, absType, n, r, c);
      WriteDayTouchesOnlyDateRow(t.sheets, d, emp, mode, proj, hrs, absType, n, r, DateCol);
      assert !HoldsDate(t.sheets[n], d, r);
      var t' := Book(t, d, emp, mode, proj, hrs, absType);
      UnattemptedRowKept(t', ds[1..], emp, mode, proj, hrs, absType, n, r, e, c);
      UnattemptedRowKept(t', ds[1..], emp, mode, proj, hrs, absType, n, r, e, DateCol);
    }
  }

  /**
    The specification of `write_range`: the names are stripped, the dates put in
    order, and every Monday .. Friday in between booked, earliest first.
   */
  function RangeOutcome(wb: map<string, Sheet>, emp: string, mode: string, proj: string, hrs: Number,
                        absType: string, dFrom: ValidDate, dTo: ValidDate): Tally
  {
    ApplyDays(Tally(wb, 0, 0), WorkdaysBetween(dFrom, dTo), Strip(emp), mode, Strip(proj), hrs, Strip(absType))
  }

  /** Giving the two dates in either order books the same days. */
  lemma RangeOutcomeSymmetric(wb: map<string, Sheet>, emp: string, mode: string, proj: string, hrs: Number,
                              absType: string, a: ValidDate, b: ValidDate)
    ensures RangeOutcome(wb, emp, mode, proj, hrs, absType, a, b) == RangeOutcome(wb, emp, mode, proj, hrs, absType, b, a)
  {
    SpanSymmetric(a, b);
  }

  /** `ok + fail` is the number of workdays in the range. */
  lemma RangeOutcomeCounts(wb: map<string, Sheet>, emp: string, mode: string, proj: string, hrs: Number,
                           absType: string, dFrom: ValidDate, dTo: ValidDate)
    ensures RangeOutcome(wb, emp, mode, proj, hrs, absType, dFrom, dTo).ok
      + RangeOutcome(wb, emp, mode, proj, hrs, absType, dFrom, dTo).fail == |WorkdaysBetween(dFrom, dTo)|
    ensures RangeOutcome(wb, emp, mode, proj, hrs, absType, dFrom, dTo).sheets.Keys == wb.Keys
  {
    ApplyDaysCounts(Tally(wb, 0, 0), WorkdaysBetween(dFrom, dTo), Strip(emp), mode, Strip(proj), hrs, Strip(absType));
  }

  /** Booking a week, Monday to Friday or Monday to Sunday, makes five attempts: `ok + fail == 5`. */
  lemma WeekRangeCounts(wb: map<string, Sheet>, emp: string, mode: string, proj: string, hrs: Number,
                        absType: string, monday: ValidDate, last: ValidDate)
    requires Weekday(monday) == 0
    requires Ordinal(last) == Ordinal(monday) + 4 || Ordinal(last) == Ordinal(monday) + 6
    ensures RangeOutcome(wb, emp, mode, proj, hrs, absType, monday, last).ok
      + RangeOutcome(wb, emp, mode, proj, hrs, absType, monday, last).fail == 5
  {
    RangeOutcomeCounts(wb, emp, mode, proj, hrs, absType, monday, last);
    WeekHasFiveWorkdays(monday, last);
  }

  /** A row holding a weekend date, or a date outside the range, keeps all its cells. */
  lemma RangeKeepsOtherRows(wb: map<string, Sheet>, emp: string, mode: string, proj: string, hrs: Number,
                            absType: string, dFrom: ValidDate, dTo: ValidDate, n: string, r: nat, e: ValidDate, c: nat)
    requires n in wb && HoldsDate(wb[n], e, r)
    requires !IsWorkday(e) || (Less(e, dFrom) && Less(e, dTo)) || (Less(dFrom, e) && Less(dTo, e))
    ensures n in RangeOutcome(wb, emp, mode, proj, hrs, absType, dFrom, dTo).sheets
    ensures Value(RangeOutcome(wb, emp, mode, proj, hrs, absType, dFrom, dTo).sheets[n], r, c) == Value(wb[n], r, c)
  {
    WorkdaysBetweenMembers(dFrom, dTo, e);
    LessIffOrdinal(e, dFrom);
    LessIffOrdinal(e, dTo);
    UnattemptedRowKept(Tally(wb, 0, 0), WorkdaysBetween(dFrom, dTo), Strip(emp), mode, Strip(proj), hrs, Strip(absType),
                       n, r, e, c);
  }

  /**
    Sheet sh keeps what the lookups of sh0 read: the merges, `max_row`, rows 1-4
    and column C are as in sh0, and `max_column` has not shrunk.
   */
  ghost predicate SheetLaidOutAs(sh0: Sheet, sh: Sheet) {
    sh.merged == sh0.merged
    && sh.maxRow == sh0.maxRow
    && sh0.maxColumn <= sh.maxColumn
    && forall r: nat, c: nat :: r < DateFirstRow || c == DateCol ==> Value(sh, r, c) == Value(sh0, r, c)
  }

  /** The workbook has the same sheets as wb0, each laid out as in wb0. */
  ghost predicate LaidOutAs(wb0: map<string, Sheet>, wb: map<string, Sheet>) {
    wb.Keys == wb0.Keys
    && forall n :: n in wb0 ==> SheetLaidOutAs(wb0[n], wb[n])
  }

  /**
    Sheet sh is laid out as sh0 and differs from it only in rows whose column C
    holds a date other than d.
   */
  ghost predicate SheetKeptFor(sh0: Sheet, sh: Sheet, d: ValidDate) {
    SheetLaidOutAs(sh0, sh)
    && forall r: nat, c: nat :: HoldsDate(sh0, d, r) ==> Value(sh, r, c) == Value(sh0, r, c)
  }

  /** The workbook has the same sheets as wb0, each changed only where bookings of dates other than d write. */
  ghost predicate KeptFor(wb0: map<string, Sheet>, wb: map<string, Sheet>, d: ValidDate) {
    wb.Keys == wb0.Keys
    && forall n :: n in wb0 ==> SheetKeptFor(wb0[n], wb[n], d)
  }

  /** Changing one block cell in a row holding another date keeps what matters for d. */
  lemma SheetKeptStep(sh0: Sheet, sh: Sheet, sh': Sheet, d: ValidDate, e: ValidDate, row: nat, b: Block)
    requires SheetKeptFor(sh0, sh, d) && d != e
    requires HoldsDate(sh, e, row) && DateFirstRow <= row && DateCol < b.startCol
    requires OnlyRowOfBlockChanged(sh, sh', row, b)
    ensures SheetKeptFor(sh0, sh', d)
  {
    assert !HoldsDate(sh0, d, row) by {
      assert Value(sh, row, DateCol) == Value(sh0, row, DateCol);
    }
  }

  /** Booking a date other than d keeps what matters for d. */
  lemma WriteKeepsOthers(wb0: map<string, Sheet>, wb: map<string, Sheet>, d: ValidDate, e: ValidDate,
                         emp: string, mode: string, proj: string, hrs: Number, absType: string)
    requires KeptFor(wb0, wb, d) && e != d
    ensures KeptFor(wb0, WriteDay(wb, e, emp, mode, proj, hrs, absType).sheets, d)
  {
    var o := WriteDay(wb, e, emp, mode, proj, hrs, absType);
    WriteDayOutcome(wb, e, emp, mode, proj, hrs, absType);
    if o.ok {
      var nm := MonthSheetOf(wb, e).value;
      var row := DateRowOf(wb[nm], e);
      var b := BlockOf(wb[nm], emp).value;
      BlockOfBounds(wb[nm], emp);
      DateRowIsFirstMatch(wb[nm], e);
      if mode == AbsenceMode {
        AbsenceEffect(wb, e, emp, proj, hrs, absType, nm, row, b);
      } else {
        ProjectEffect(wb, e, emp, mode, proj, hrs, absType, nm, row, b, ProjectColOf(wb[nm], b, NormalizeKey(proj)));
      }
      SheetKeptStep(wb0[nm], wb[nm], o.sheets[nm], d, e, row, b);
    }
  }

  /** A workbook laid out as wb0 finds the same date row for d on each sheet. */
  lemma DateRowKept(wb0: map<string, Sheet>, wb: map<string, Sheet>, d: ValidDate, nm: string)
    requires LaidOutAs(wb0, wb) && nm in wb0
    ensures nm in wb && DateRowOf(wb[nm], d) == DateRowOf(wb0[nm], d)
  {
    var sh0, sh := wb0[nm], wb[nm];
    assert SheetLaidOutAs(sh0, sh);
    forall r | DateFirstRow <= r <= sh0.maxRow
      ensures Value(sh, r, DateCol) == Value(sh0, r, DateCol)
    {
    }
    DateRowStable(sh0, sh, d);
  }

  /** Where the layout is kept, booking d finds the same sheet, row, block and project columns. */
  lemma LookupsKept(wb0: map<string, Sheet>, wb: map<string, Sheet>, d: ValidDate, emp: string,
                    nm: string, row: nat, b: Block)
    requires LaidOutAs(wb0, wb)
    requires MonthSheetOf(wb0, d) == Some(nm)
    requires DateRowOf(wb0[nm], d) == row && BlockOf(wb0[nm], emp) == Some(b)
    ensures MonthSheetOf(wb, d) == Some(nm)
    ensures DateRowOf(wb[nm], d) == row && BlockOf(wb[nm], emp) == Some(b)
    ensures forall key :: ProjectColOf(wb[nm], b, key) == ProjectColOf(wb0[nm], b, key)
  {
    MonthSheetByNames(wb0, wb, d);
    DateRowKept(wb0, wb, d, nm);
    var sh0, sh := wb0[nm], wb[nm];
    assert SheetLaidOutAs(sh0, sh);
    assert SameHeader(sh0, sh);
    BlockOfStable(sh0, sh, emp);
    forall key
      ensures ProjectColOf(sh, b, key) == ProjectColOf(sh0, b, key)
    {
      ProjectColStable(sh0, sh, b, key);
    }
  }

  /**
    The row where wb0 holds d carries what booking d writes: the absence text with
    the project cells empty, or the hours in the project column with the absence
    cell empty; the row still holds the date.
   */
  ghost predicate Booked(wb0: map<string, Sheet>, wb: map<string, Sheet>, d: ValidDate, emp: string, mode: string,
                         proj: string, hrs: Number, absType: string)
  {
    MonthSheetOf(wb0, d).Some? && MonthSheetOf(wb0, d).value in wb
    && var nm := MonthSheetOf(wb0, d).value;
    BlockOf(wb0[nm], emp).Some?
    && var b := BlockOf(wb0[nm], emp).value;
    var row := DateRowOf(wb0[nm], d);
    HoldsDate(wb[nm], d, row)
    && if mode == AbsenceMode then AbsentIn(wb[nm], row, b, absType)
       else (Value(wb[nm], row, ProjectColOf(wb0[nm], b, NormalizeKey(proj))) == Num(hrs)
             && Value(wb[nm], row, b.AbsCol()) == Empty)
  }

  /** Booking d where nothing that matters for d has changed writes what booking d in wb0 would. */
  lemma BookingOnKept(wb0: map<string, Sheet>, wb: map<string, Sheet>, d: ValidDate, emp: string, mode: string,
                      proj: string, hrs: Number, absType: string)
    requires KeptFor(wb0, wb, d)
    requires WriteDay(wb0, d, emp, mode, proj, hrs, absType).ok
    ensures Booked(wb0, WriteDay(wb, d, emp, mode, proj, hrs, absType).sheets, d, emp, mode, proj, hrs, absType)
  {
    WriteDayOutcome(wb0, d, emp, mode, proj, hrs, absType);
    var nm := MonthSheetOf(wb0, d).value;
    var row := DateRowOf(wb0[nm], d);
    var b := BlockOf(wb0[nm], emp).value;
    assert LaidOutAs(wb0, wb);
    LookupsKept(wb0, wb, d, emp, nm, row, b);
    DateRowIsFirstMatch(wb[nm], d);
    BlockOfBounds(wb[nm], emp);
    var o := WriteDay(wb, d, emp, mode, proj, hrs, absType);
    if mode == AbsenceMode {
      AbsenceEffect(wb, d, emp, proj, hrs, absType, nm, row, b);
    } else {
      var pc := ProjectColOf(wb0[nm], b, NormalizeKey(proj));
      ProjectEffect(wb, d, emp, mode, proj, hrs, absType, nm, row, b, pc);
    }
    assert Value(o.sheets[nm], row, DateCol) == Value(wb[nm], row, DateCol);
  }

  /** Bookings of dates other than d leave the row booked for d as it is. */
  lemma BookedSurvives(wb0: map<string, Sheet>, t: Tally, ds: seq<ValidDate>, d: ValidDate, emp: string, mode: string,
                       proj: string, hrs: Number, absType: string)
    requires Booked(wb0, t.sheets, d, emp, mode, proj, hrs, absType) && d !in ds
    ensures Booked(wb0, ApplyDays(t, ds, emp, mode, proj, hrs, absType).sheets, d, emp, mode, proj, hrs, absType)
  {
    var nm := MonthSheetOf(wb0, d).value;
    var row := DateRowOf(wb0[nm], d);
    var t' := ApplyDays(t, ds, emp, mode, proj, hrs, absType);
    forall c
      ensures nm in t'.sheets && Value(t'.sheets[nm], row, c) == Value(t.sheets[nm], row, c)
    {
      UnattemptedRowKept(t, ds, emp, mode, proj, hrs, absType, nm, row, d, c);
    }
    UnattemptedRowKept(t, ds, emp, mode, proj, hrs, absType, nm, row, d, DateCol);
  }

  /** A date of a list without repeats whose booking succeeds in wb0 is, after the whole list, still booked. */
  lemma {:induction false} ApplyDaysBooks(wb0: map<string, Sheet>, t: Tally, ds: seq<ValidDate>, d: ValidDate,
                                          emp: string, mode: string, proj: string, hrs: Number, absType: string)
    requires d in ds && NoRepeats(ds)
    requires KeptFor(wb0, t.sheets, d)
    requires WriteDay(wb0, d, emp, mode, proj, hrs, absType).ok
    ensures Booked(wb0, ApplyDays(t, ds, emp, mode, proj, hrs, absType).sheets, d, emp, mode, proj, hrs, absType)
    decreases |ds|
  {
    var t' := Book(t, ds[0], emp, mode, proj, hrs, absType);
    NoRepeatsTail(ds);
    if ds[0] == d {
      BookingOnKept(wb0, t.sheets, d, emp, mode, proj, hrs, absType);
      BookedSurvives(wb0, t', ds[1..], d, emp, mode, proj, hrs, absType);
    } else {
      WriteKeepsOthers(wb0, t.sheets, d, ds[0], emp, mode, proj, hrs, absType);
      ApplyDaysBooks(wb0, t', ds[1..], d, emp, mode, proj, hrs, absType);
    }
  }

  /**
    Every Monday .. Friday of the range whose booking succeeds on the workbook as
    given ends up booked once the whole range is written: later days do not undo it.
   */
  lemma RangeBooksEachDay(wb: map<string, Sheet>, emp: string, mode: string, proj: string, hrs: Number,
                          absType: string, dFrom: ValidDate, dTo: ValidDate, d: ValidDate)
    requires d in WorkdaysBetween(dFrom, dTo)
    requires WriteDay(wb, d, Strip(emp), mode, Strip(proj), hrs, Strip(absType)).ok
    ensures Booked(wb, RangeOutcome(wb, emp, mode, proj, hrs, absType, dFrom, dTo).sheets, d,
                   Strip(emp), mode, Strip(proj), hrs, Strip(absType))
  {
    WorkdaysBetweenDistinct(dFrom, dTo);
    assert KeptFor(wb, wb, d);
    ApplyDaysBooks(wb, Tally(wb, 0, 0), WorkdaysBetween(dFrom, dTo), d, Strip(emp), mode, Strip(proj), hrs, Strip(absType));
  }

  /** Every booking keeps the layout of every sheet. */
  lemma WriteKeepsLayout(wb: map<string, Sheet>, dt: ValidDate, emp: string, mode: string,
                         proj: string, hrs: Number, absType: string)
    ensures LaidOutAs(wb, WriteDay(wb, dt, emp, mode, proj, hrs, absType).sheets)
  {
    var o := WriteDay(wb, dt, emp, mode, proj, hrs, absType);
    WriteDayOutcome(wb, dt, emp, mode, proj, hrs, absType);
    if o.ok {
      var nm := MonthSheetOf(wb, dt).value;
      var row := DateRowOf(wb[nm], dt);
      var b := BlockOf(wb[nm], emp).value;
      BlockOfBounds(wb[nm], emp);
      DateRowIsFirstMatch(wb[nm], dt);
      if mode == AbsenceMode {
        AbsenceEffect(wb, dt, emp, proj, hrs, absType, nm, row, b);
      } else {
        ProjectEffect(wb, dt, emp, mode, proj, hrs, absType, nm, row, b, ProjectColOf(wb[nm], b, NormalizeKey(proj)));
      }
      assert !b.InBlock(DateCol);
      assert SheetLaidOutAs(wb[nm], o.sheets[nm]);
    }
  }

  lemma LaidOutTrans(wb0: map<string, Sheet>, wb1: map<string, Sheet>, wb2: map<string, Sheet>)
    requires LaidOutAs(wb0, wb1) && LaidOutAs(wb1, wb2)
    ensures LaidOutAs(wb0, wb2)
  {
    forall n | n in wb0
      ensures SheetLaidOutAs(wb0[n], wb2[n])
    {
      assert SheetLaidOutAs(wb0[n], wb1[n]) && SheetLaidOutAs(wb1[n], wb2[n]);
    }
  }

  /** Booking any list of dates keeps the layout of every sheet. */
  lemma {:induction false} ApplyDaysKeepsLayout(t: Tally, ds: seq<ValidDate>, emp: string, mode: string,
                                                proj: string, hrs: Number, absType: string)
    ensures LaidOutAs(t.sheets, ApplyDays(t, ds, emp, mode, proj, hrs, absType).sheets)
    decreases |ds|
  {
    if ds != [] {
      var t' := Book(t, ds[0], emp, mode, proj, hrs, absType);
      WriteKeepsLayout(t.sheets, ds[0], emp, mode, proj, hrs, absType);
      ApplyDaysKeepsLayout(t', ds[1..], emp, mode, proj, hrs, absType);
      LaidOutTrans(t.sheets, t'.sheets, ApplyDays(t, ds, emp, mode, proj, hrs, absType).sheets);
    }
  }

  /** The cell (r, c) is allocated and holds v. */
  ghost predicate HasCell(sh: Sheet, r: nat, c: nat, v: Cell) {
    (r, c) in sh.cells && sh.cells[(r, c)] == v
  }

  /** Every allocated cell of the row is kept, and the bounds have not shrunk. */
  ghost predicate RowKept(sh: Sheet, sh': Sheet, row: nat) {
    sh.maxRow <= sh'.maxRow && sh.maxColumn <= sh'.maxColumn
    && forall c: nat, v: Cell :: HasCell(sh, row, c, v) ==> HasCell(sh', row, c, v)
  }

  /** What an absence leaves in a row: the absence text and empty project cells, all allocated and within the bounds. */
  ghost predicate StoredAbsent(sh: Sheet, row: nat, b: Block, absType: string) {
    row <= sh.maxRow && b.AbsCol() <= sh.maxColumn
    && HasCell(sh, row, b.AbsCol(), Str(absType))
    && forall c :: b.IsProjectCol(c) ==> HasCell(sh, row, c, Empty)
  }

  /** What booked hours leave in a row: the hours and an empty absence cell, both allocated and within the bounds. */
  ghost predicate StoredHours(sh: Sheet, row: nat, b: Block, pc: nat, hrs: Number) {
    row <= sh.maxRow && pc <= sh.maxColumn && b.AbsCol() <= sh.maxColumn
    && HasCell(sh, row, pc, Num(hrs)) && HasCell(sh, row, b.AbsCol(), Empty)
  }

  /** Writing what a cell already holds, inside the bounds, changes nothing. */
  lemma PutNoop(sh: Sheet, r: nat, c: nat, v: Cell)
    requires HasCell(sh, r, c, v) && r <= sh.maxRow && c <= sh.maxColumn
    ensures Put(sh, r, c, v) == sh
  {
    assert sh.cells[(r, c) := v] == sh.cells;
  }

  /** Clearing cleared cells, inside the bounds, changes nothing. */
  lemma {:induction false} ClearColsNoop(sh: Sheet, row: nat, lo: nat, hi: nat)
    requires row <= sh.maxRow && hi <= sh.maxColumn + 1
    requires forall c :: lo <= c < hi ==> HasCell(sh, row, c, Empty)
    ensures ClearCols(sh, row, lo, hi) == sh
    decreases hi - lo
  {
    if lo < hi {
      ClearColsNoop(sh, row, lo, hi - 1);
      PutNoop(sh, row, hi - 1, Empty);
    }
  }

  /** Clearing allocates the cleared cells and keeps every other allocated cell. */
  lemma {:induction false} ClearColsStores(sh: Sheet, row: nat, lo: nat, hi: nat)
    ensures forall c :: lo <= c < hi ==> HasCell(ClearCols(sh, row, lo, hi), row, c, Empty)
    ensures forall r: nat, c: nat, v: Cell :: !(r == row && lo <= c < hi) && HasCell(sh, r, c, v) ==> HasCell(ClearCols(sh, row, lo, hi), r, c, v)
    decreases hi - lo
  {
    if lo < hi {
      ClearColsStores(sh, row, lo, hi - 1);
      var inner := ClearCols(sh, row, lo, hi - 1);
      assert ClearCols(sh, row, lo, hi).cells == inner.cells[(row, hi - 1) := Empty];
      forall c | lo <= c < hi
        ensures HasCell(ClearCols(sh, row, lo, hi), row, c, Empty)
      {
        if c < hi - 1 {
          assert HasCell(inner, row, c, Empty);
        }
      }
    }
  }

  /** An absence, written again over itself, changes nothing. */
  lemma MarkAbsentNoop(sh: Sheet, row: nat, b: Block, absType: string)
    requires StoredAbsent(sh, row, b, absType)
    ensures MarkAbsent(sh, row, b, absType) == sh
  {
    PutNoop(sh, row, b.AbsCol(), Str(absType));
    ClearColsNoop(sh, row, b.startCol, b.AbsCol());
  }

  /** Hours, written again over themselves, change nothing. */
  lemma BookHoursNoop(sh: Sheet, row: nat, b: Block, pc: nat, hrs: Number)
    requires StoredHours(sh, row, b, pc, hrs)
    ensures BookHours(sh, row, b, pc, hrs) == sh
  {
    PutNoop(sh, row, pc, Num(hrs));
    PutNoop(sh, row, b.AbsCol(), Empty);
  }

  /** An absence stores its cells and keeps the allocated cells of every other row. */
  lemma MarkAbsentStores(sh: Sheet, row: nat, b: Block, absType: string, r: nat)
    ensures StoredAbsent(MarkAbsent(sh, row, b, absType), row, b, absType)
    ensures r != row ==> RowKept(sh, MarkAbsent(sh, row, b, absType), r)
  {
    var sh1 := Put(sh, row, b.AbsCol(), Str(absType));
    ClearColsStores(sh1, row, b.startCol, b.AbsCol());
    ClearColsEffect(sh1, row, b.startCol, b.AbsCol());
  }

  /** Booked hours store their cells and keep the allocated cells of every other row. */
  lemma BookHoursStores(sh: Sheet, row: nat, b: Block, pc: nat, hrs: Number, r: nat)
    requires pc != b.AbsCol()
    ensures StoredHours(BookHours(sh, row, b, pc, hrs), row, b, pc, hrs)
    ensures r != row ==> RowKept(sh, BookHours(sh, row, b, pc, hrs), r)
  {
  }

  /** Booking dt keeps the allocated cells of a row not holding dt, and its column C. */
  lemma WriteDayKeepsRow(wb: map<string, Sheet>, dt: ValidDate, emp: string, mode: string,
                         proj: string, hrs: Number, absType: string, n: string, r: nat)
    requires n in wb && !HoldsDate(wb[n], dt, r)
    ensures n in WriteDay(wb, dt, emp, mode, proj, hrs, absType).sheets
    ensures RowKept(wb[n], WriteDay(wb, dt, emp, mode, proj, hrs, absType).sheets[n], r)
    ensures Value(WriteDay(wb, dt, emp, mode, proj, hrs, absType).sheets[n], r, DateCol) == Value(wb[n], r, DateCol)
  {
    var o := WriteDay(wb, dt, emp, mode, proj, hrs, absType);
    WriteDayOutcome(wb, dt, emp, mode, proj, hrs, absType);
    WriteDayTouchesOnlyDateRow(wb, dt, emp, mode, proj, hrs, absType, n, r, DateCol);
    if o.ok && MonthSheetOf(wb, dt).value == n {
      var row := DateRowOf(wb[n], dt);
      var b := BlockOf(wb[n], emp).value;
      DateRowIsFirstMatch(wb[n], dt);
      if mode == AbsenceMode {
        MarkAbsentStores(wb[n], row, b, absType, r);
      } else {
        var pc := ProjectColOf(wb[n], b, NormalizeKey(proj));
        ProjectColIsFirstMatch(wb[n], b, NormalizeKey(proj));
        BookHoursStores(wb[n], row, b, pc, hrs, r);
      }
    }
  }

  /** A row holding a date that is not attempted keeps its allocated cells. */
  lemma {:induction false} UnattemptedRowStays(t: Tally, ds: seq<ValidDate>, emp: string, mode: string,
                                               proj: string, hrs: Number, absType: string,
                                               n: string, r: nat, e: ValidDate)
    requires n in t.sheets && HoldsDate(t.sheets[n], e, r) && e !in ds
    ensures n in ApplyDays(t, ds, emp, mode, proj, hrs, absType).sheets
    ensures RowKept(t.sheets[n], ApplyDays(t, ds, emp, mode, proj, hrs, absType).sheets[n], r)
    decreases |ds|
  {
    if ds != [] {
      assert e !in ds[1..];
      WriteDayKeepsRow(t.sheets, ds[0], emp, mode, proj, hrs, absType, n, r);
      var t' := Book(t, ds[0], emp, mode, proj, hrs, absType);
      UnattemptedRowStays(t', ds[1..], emp, mode, proj, hrs, absType, n, r, e);
    }
  }

  /** A sheet on which the employee has no block is never written. */
  lemma {:induction false} NoBlockNoWrites(t: Tally, ds: seq<ValidDate>, emp: string, mode: string,
                                           proj: string, hrs: Number, absType: string, nm: string)
    requires nm in t.sheets && BlockOf(t.sheets[nm], emp).None?
    ensures nm in ApplyDays(t, ds, emp, mode, proj, hrs, absType).sheets
    ensures ApplyDays(t, ds, emp, mode, proj, hrs, absType).sheets[nm] == t.sheets[nm]
    decreases |ds|
  {
    if ds != [] {
      WriteDayOutcome(t.sheets, ds[0], emp, mode, proj, hrs, absType);
      var t' := Book(t, ds[0], emp, mode, proj, hrs, absType);
      assert t'.sheets[nm] == t.sheets[nm];
      NoBlockNoWrites(t', ds[1..], emp, mode, proj, hrs, absType, nm);
    }
  }

  /** What a booking leaves in its row: the absence, or the hours in column pc. */
  ghost predicate Stored(sh: Sheet, row: nat, b: Block, mode: string, pc: nat, hrs: Number, absType: string) {
    if mode == AbsenceMode then StoredAbsent(sh, row, b, absType) else StoredHours(sh, row, b, pc, hrs)
  }

  /** A successful booking stores what it wrote in the date row. */
  lemma WriteStores(s: map<string, Sheet>, d: ValidDate, emp: string, mode: string,
                    proj: string, hrs: Number, absType: string, nm: string, row: nat, b: Block)
    requires MonthSheetOf(s, d) == Some(nm) && DateRowOf(s[nm], d) == row && BlockOf(s[nm], emp) == Some(b)
    requires WriteDay(s, d, emp, mode, proj, hrs, absType).ok
    ensures nm in WriteDay(s, d, emp, mode, proj, hrs, absType).sheets
    ensures Stored(WriteDay(s, d, emp, mode, proj, hrs, absType).sheets[nm], row, b, mode,
                   ProjectColOf(s[nm], b, NormalizeKey(proj)), hrs, absType)
  {
    if mode == AbsenceMode {
      MarkAbsentStores(s[nm], row, b, absType, row);
    } else {
      var pc := ProjectColOf(s[nm], b, NormalizeKey(proj));
      ProjectColIsFirstMatch(s[nm], b, NormalizeKey(proj));
      BookHoursStores(s[nm], row, b, pc, hrs, row);
    }
  }

  /** Booking a day whose row already stores the booking succeeds and changes nothing. */
  lemma RewriteStored(w: map<string, Sheet>, d: ValidDate, emp: string, mode: string,
                      proj: string, hrs: Number, absType: string, nm: string, row: nat, b: Block, pc: nat)
    requires MonthSheetOf(w, d) == Some(nm) && DateRowOf(w[nm], d) == row && row != 0 && BlockOf(w[nm], emp) == Some(b)
    requires mode != AbsenceMode ==> ProjectColOf(w[nm], b, NormalizeKey(proj)) == pc && pc != 0
    requires Stored(w[nm], row, b, mode, pc, hrs, absType)
    ensures WriteDay(w, d, emp, mode, proj, hrs, absType) == Outcome(true, w)
  {
    if mode == AbsenceMode {
      MarkAbsentNoop(w[nm], row, b, absType);
    } else {
      BookHoursNoop(w[nm], row, b, pc, hrs);
    }
    assert w[nm := w[nm]] == w;
  }

  /**
    Booking d again on w, which finds the same sheet, row, block and project
    column as s and keeps the row s's booking wrote, repeats s's outcome and
    changes nothing.
   */
  lemma RepeatFound(s: map<string, Sheet>, w: map<string, Sheet>, d: ValidDate, emp: string, mode: string,
                    proj: string, hrs: Number, absType: string, nm: string, row: nat, b: Block)
    requires MonthSheetOf(s, d) == Some(nm) && DateRowOf(s[nm], d) == row && row != 0 && BlockOf(s[nm], emp) == Some(b)
    requires MonthSheetOf(w, d) == Some(nm) && DateRowOf(w[nm], d) == row && BlockOf(w[nm], emp) == Some(b)
    requires ProjectColOf(w[nm], b, NormalizeKey(proj)) == ProjectColOf(s[nm], b, NormalizeKey(proj))
    requires WriteDay(s, d, emp, mode, proj, hrs, absType).ok ==>
      nm in WriteDay(s, d, emp, mode, proj, hrs, absType).sheets
      && RowKept(WriteDay(s, d, emp, mode, proj, hrs, absType).sheets[nm], w[nm], row)
    ensures WriteDay(w, d, emp, mode, proj, hrs, absType) == Outcome(WriteDay(s, d, emp, mode, proj, hrs, absType).ok, w)
  {
    var pc := ProjectColOf(s[nm], b, NormalizeKey(proj));
    if WriteDay(s, d, emp, mode, proj, hrs, absType).ok {
      WriteStores(s, d, emp, mode, proj, hrs, absType, nm, row, b);
      RewriteStored(w, d, emp, mode, proj, hrs, absType, nm, row, b, pc);
    }
  }

  /**
    Booking d again on w repeats the outcome of booking it on s and changes
    nothing, when w is laid out as s, keeps the rows holding d as the booking
    on s left them, and leaves sheets without the employee's block as in s.
   */
  lemma RepeatOn(s: map<string, Sheet>, s1: map<string, Sheet>, w: map<string, Sheet>, d: ValidDate, emp: string,
                 mode: string, proj: string, hrs: Number, absType: string)
    requires s1 == WriteDay(s, d, emp, mode, proj, hrs, absType).sheets
    requires LaidOutAs(s, w)
    requires forall n, r :: n in s1 && HoldsDate(s1[n], d, r) ==> n in w && RowKept(s1[n], w[n], r)
    requires forall n :: n in s && BlockOf(s[n], emp).None? ==> n in w && w[n] == s[n]
    ensures WriteDay(w, d, emp, mode, proj, hrs, absType) == Outcome(WriteDay(s, d, emp, mode, proj, hrs, absType).ok, w)
  {
    WriteDayOutcome(s, d, emp, mode, proj, hrs, absType);
    WriteDayOutcome(w, d, emp, mode, proj, hrs, absType);
    MonthSheetByNames(s, w, d);
    if MonthSheetOf(s, d).Some? {
      var nm := MonthSheetOf(s, d).value;
      var row := DateRowOf(s[nm], d);
      DateRowKept(s, w, d, nm);
      if row != 0 && BlockOf(s[nm], emp).Some? {
        var b := BlockOf(s[nm], emp).value;
        LookupsKept(s, w, d, emp, nm, row, b);
        if WriteDay(s, d, emp, mode, proj, hrs, absType).ok {
          DateRowIsFirstMatch(s[nm], d);
          WriteDayTouchesOnlyDateRow(s, d, emp, mode, proj, hrs, absType, nm, row, DateCol);
          assert HoldsDate(s1[nm], d, row);
        }
        RepeatFound(s, w, d, emp, mode, proj, hrs, absType, nm, row, b);
      }
    }
  }

  /**
    After booking a list without repeats, booking its first date again succeeds
    exactly when the first booking did, and changes nothing.
   */
  lemma RepeatFirstDay(t: Tally, ds: seq<ValidDate>, emp: string, mode: string,
                       proj: string, hrs: Number, absType: string)
    requires ds != [] && NoRepeats(ds)
    ensures WriteDay(ApplyDays(t, ds, emp, mode, proj, hrs, absType).sheets, ds[0], emp, mode, proj, hrs, absType)
      == Outcome(WriteDay(t.sheets, ds[0], emp, mode, proj, hrs, absType).ok, ApplyDays(t, ds, emp, mode, proj, hrs, absType).sheets)
  {
    var d := ds[0];
    var s := t.sheets;
    var t1 := Book(t, d, emp, mode, proj, hrs, absType);
    var w := ApplyDays(t1, ds[1..], emp, mode, proj, hrs, absType).sheets;
    assert w == ApplyDays(t, ds, emp, mode, proj, hrs, absType).sheets;
    NoRepeatsTail(ds);
    WriteKeepsLayout(s, d, emp, mode, proj, hrs, absType);
    ApplyDaysKeepsLayout(t1, ds[1..], emp, mode, proj, hrs, absType);
    LaidOutTrans(s, t1.sheets, w);
    forall n, r | n in t1.sheets && HoldsDate(t1.sheets[n], d, r)
      ensures n in w && RowKept(t1.sheets[n], w[n], r)
    {
      UnattemptedRowStays(t1, ds[1..], emp, mode, proj, hrs, absType, n, r, d);
    }
    forall n | n in s && BlockOf(s[n], emp).None?
      ensures n in w && w[n] == s[n]
    {
      NoBlockNoWrites(t, ds, emp, mode, proj, hrs, absType, n);
    }
    RepeatOn(s, t1.sheets, w, d, emp, mode, proj, hrs, absType);
  }

  /**
    Booking a list without repeats again, on the workbook the first pass left,
    changes nothing and counts the same successes and failures.
   */
  lemma {:induction false} ApplyDaysAgain(t: Tally, ds: seq<ValidDate>, k: nat, m: nat, emp: string, mode: string,
                                          proj: string, hrs: Number, absType: string)
    requires NoRepeats(ds)
    ensures var f := ApplyDays(t, ds, emp, mode, proj, hrs, absType);
      ApplyDays(Tally(f.sheets, k, m), ds, emp, mode, proj, hrs, absType).sheets == f.sheets
    ensures var f := ApplyDays(t, ds, emp, mode, proj, hrs, absType);
      ApplyDays(Tally(f.sheets, k, m), ds, emp, mode, proj, hrs, absType).ok + t.ok == k + f.ok
    ensures var f := ApplyDays(t, ds, emp, mode, proj, hrs, absType);
      ApplyDays(Tally(f.sheets, k, m), ds, emp, mode, proj, hrs, absType).fail + t.fail == m + f.fail
    decreases |ds|
  {
    if ds != [] {
      var d := ds[0];
      var f := ApplyDays(t, ds, emp, mode, proj, hrs, absType);
      var t1 := Book(t, d, emp, mode, proj, hrs, absType);
      assert f == ApplyDays(t1, ds[1..], emp, mode, proj, hrs, absType);
      NoRepeatsTail(ds);
      RepeatFirstDay(t, ds, emp, mode, proj, hrs, absType);
      var okd := WriteDay(t.sheets, d, emp, mode, proj, hrs, absType).ok;
      var k1: nat, m1: nat := if okd then k + 1 else k, if okd then m else m + 1;
      assert Book(Tally(f.sheets, k, m), d, emp, mode, proj, hrs, absType) == Tally(f.sheets, k1, m1);
      ApplyDaysAgain(t1, ds[1..], k1, m1, emp, mode, proj, hrs, absType);
    }
  }

  /**
    `write_range` is idempotent: writing the same range again over its own result
    leaves every cell as it is (hours are overwritten, not added) and counts the
    same `ok` and `fail`.
   */
  lemma RangeOutcomeIdempotent(wb: map<string, Sheet>, emp: string, mode: string, proj: string, hrs: Number,
                               absType: string, dFrom: ValidDate, dTo: ValidDate)
    ensures var t := RangeOutcome(wb, emp, mode, proj, hrs, absType, dFrom, dTo);
      RangeOutcome(t.sheets, emp, mode, proj, hrs, absType, dFrom, dTo) == t
  {
    WorkdaysBetweenDistinct(dFrom, dTo);
    ApplyDaysAgain(Tally(wb, 0, 0), WorkdaysBetween(dFrom, dTo), 0, 0, Strip(emp), mode, Strip(proj), hrs, Strip(absType));
  }

  /**
    The `while cur <= d_to` loop of `write_range` as a recursion: what is left to
    do from `cur` on, given the tally so far.
   */
  function RangeLoop(t: Tally, cur: ValidDate, hi: ValidDate, emp: string, mode: string,
                     proj: string, hrs: Number, absType: string): Tally
    decreases Ordinal(hi) - Ordinal(cur)
  {
    LessIffOrdinal(hi, cur);
    if Less(hi, cur) then t
    else
      NextDayOrdinal(cur);
      var t' := if IsWorkday(cur) then Book(t, cur, emp, mode, proj, hrs, absType) else t;
      RangeLoop(t', NextDay(cur), hi, emp, mode, proj, hrs, absType)
  }

  /** The loop books exactly the workdays from `cur` to `hi`, in order. */
  lemma {:induction false} RangeLoopBooksWorkdays(t: Tally, cur: ValidDate, hi: ValidDate, emp: string, mode: string,
                                                  proj: string, hrs: Number, absType: string)
    ensures RangeLoop(t, cur, hi, emp, mode, proj, hrs, absType)
      == ApplyDays(t, Weekdays(DaysFrom(cur, hi)), emp, mode, proj, hrs, absType)
    decreases Ordinal(hi) - Ordinal(cur)
  {
    LessIffOrdinal(hi, cur);
    if !Less(hi, cur) {
      NextDayOrdinal(cur);
      var rest := DaysFrom(NextDay(cur), hi);
      var t' := if IsWorkday(cur) then Book(t, cur, emp, mode, proj, hrs, absType) else t;
      RangeLoopBooksWorkdays(t', NextDay(cur), hi, emp, mode, proj, hrs, absType);
      assert DaysFrom(cur, hi) == [cur] + rest;
      assert ([cur] + rest)[1..] == rest;
      if IsWorkday(cur) {
        var ws := [cur] + Weekdays(rest);
        assert ws[1..] == Weekdays(rest);
      } else {
        assert Weekdays(DaysFrom(cur, hi)) == Weekdays(rest);
      }
    }
  }

  /** The clearing loop of `_write_one_day`: `for c in range(lo, hi): ws.cell(row, c).value = None`. */
  method ClearRow(sh: Sheet, row: nat, lo: nat, hi: nat) returns (e: Sheet)
    requires lo <= hi
    ensures e == ClearCols(sh, row, lo, hi)
  {
    e := sh;
    for c := lo to hi
      invariant e == ClearCols(sh, row, lo, c)
    {
      e := Put(e, row, c, Empty);
    }
  }

  /** The open workbook: its month sheets, which the booking methods update in place. */
  class Workbook {
    var sheets: map<string, Sheet>

    constructor(sheets: map<string, Sheet>)
      ensures this.sheets == sheets
    {
      this.sheets := sheets;
    }

    /** `_write_one_day(wb, dt, emp, mode, proj, hrs, abs_type)`. */
    method WriteOneDay(dt: ValidDate, emp: string, mode: string, proj: string, hrs: Number, absType: string)
      returns (ok: bool)
      modifies this
      ensures Outcome(ok, sheets) == WriteDay(old(sheets), dt, emp, mode, proj, hrs, absType)
    {
      var found := MonthSheetOf(sheets, dt);
      if found.None? {
        return false;
      }
      var nm := found.value;
      var ws := sheets[nm];
      var dayRow := FindDateRow(ws, dt);
      if dayRow == 0 {
        return false;
      }
      var block := FindEmployeeBlock(ws, emp);
      if block.None? {
        return false;
      }
      var b := block.value;
      var absCol := b.AbsCol();
      if mode == AbsenceMode {
        ws := Put(ws, dayRow, absCol, Str(absType));
        ws := ClearRow(ws, dayRow, b.startCol, absCol);
        sheets := sheets[nm := ws];
        return true;
      }
      var projCol := FindProjectCol(ws, b, proj);
      if projCol == 0 {
        return false;
      }
      ws := Put(ws, dayRow, projCol, Num(hrs));
      ws := Put(ws, dayRow, absCol, Empty);
      sheets := sheets[nm := ws];
      return true;
    }

    /** `write_range(emp, mode, proj, hrs, abs_type, d_from, d_to)`, without the final save. */
    method WriteRange(emp: string, mode: string, proj: string, hrs: Number, absType: string,
                      dFrom: ValidDate, dTo: ValidDate) returns (ok: nat, fail: nat)
      modifies this
      ensures Tally(sheets, ok, fail) == RangeOutcome(old(sheets), emp, mode, proj, hrs, absType, dFrom, dTo)
    {
      var e, p, a := Strip(emp), Strip(proj), Strip(absType);
      var lo, hi := dFrom, dTo;
      if Less(hi, lo) {
        lo, hi := hi, lo;
      }
      assert (lo, hi) == Span(dFrom, dTo);
      ghost var start := sheets;
      ok, fail := 0, 0;
      var cur := lo;
      while LessEq(cur, hi)
        invariant RangeLoop(Tally(sheets, ok, fail), cur, hi, e, mode, p, hrs, a)
          == RangeLoop(Tally(start, 0, 0), lo, hi, e, mode, p, hrs, a)
        decreases Ordinal(hi) - Ordinal(cur)
      {
        LessIffOrdinal(hi, cur);
        NextDayOrdinal(cur);
        ghost var before := Tally(sheets, ok, fail);
        if Weekday(cur) <= 4 {
          var written := WriteOneDay(cur, e, mode, p, hrs, a);
          if written {
            ok := ok + 1;
          } else {
            fail := fail + 1;
          }
        }
        assert Tally(sheets, ok, fail) == if IsWorkday(cur) then Book(before, cur, e, mode, p, hrs, a) else before;
        cur := NextDay(cur);
      }
      RangeLoopBooksWorkdays(Tally(start, 0, 0), lo, hi, e, mode, p, hrs, a);
    }
  }
}
