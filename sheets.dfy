/**
  The abstract worksheet: a map from (row, column) to a typed cell value, the
  sheet's merged ranges and its `max_row` / `max_column`, as openpyxl exposes
  them to `excel_io.py`. Rows and columns are 1-based.
 */
module Sheets {
  import opened Calendar
  import opened Optional

  // The fixed month-sheet layout (excel_io.py lines 17-21).
  const HeaderRow: nat := 3
  const SubheaderRow: nat := 4
  const FirstEmployeeCol: nat := 6
  const DateFirstRow: nat := 5
  const DateCol: nat := 3

  type SecondOfDay = s: nat | s < 86400

  /** A Python int or float held in a cell: its value and the text `str()` gives for it. */
  datatype Number = Number(value: real, text: string)

  /** A cell's value: None, a string, a number, a date or a datetime. */
  datatype Cell =
    | Empty
    | Str(s: string)
    | Num(n: Number)
    | DateOnly(date: ValidDate)
    | DateTime(date: ValidDate, second: SecondOfDay)

  /** A merged range `min_row..max_row` x `min_col..max_col`, bounds inclusive. */
  datatype MergedRange = MergedRange(minRow: nat, maxRow: nat, minCol: nat, maxCol: nat)

  datatype Sheet = Sheet(
    cells: map<(nat, nat), Cell>,
    merged: seq<MergedRange>,
    maxRow: nat,
    maxColumn: nat)

  /** `ws.cell(r, c).value`: a cell never written reads as None. */
  function Value(sh: Sheet, r: nat, c: nat): Cell {
    if (r, c) in sh.cells then sh.cells[(r, c)] else Empty
  }

  function Max(a: nat, b: nat): nat {
    if a < b then b else a
  }

  /**
    `ws.cell(r, c).value = v`: the cell now holds `v`, and `max_row` / `max_column`
    grow to cover it, since openpyxl computes them over every allocated cell.
   */
  function Put(sh: Sheet, r: nat, c: nat, v: Cell): Sheet {
    sh.(cells := sh.cells[(r, c) := v], maxRow := Max(sh.maxRow, r), maxColumn := Max(sh.maxColumn, c))
  }

  /** After the write the cell holds v, every other cell is unchanged, and the cell is allocated. */
  lemma PutEffect(sh: Sheet, r: nat, c: nat, v: Cell)
    ensures Value(Put(sh, r, c, v), r, c) == v
    ensures forall r': nat, c': nat :: (r', c') != (r, c) ==> Value(Put(sh, r, c, v), r', c') == Value(sh, r', c')
    ensures Put(sh, r, c, v).cells.Keys == sh.cells.Keys + {(r, c)}
  {
  }

  /** `_as_date`: a datetime collapses to its calendar date; anything that is not a date is None. */
  function AsDate(v: Cell): (r: Option<ValidDate>)
    ensures r.Some? <==> (v.DateOnly? || v.DateTime?)
    ensures r.Some? ==> r.value == v.date
  {
    match v
    case DateOnly(d) => Some(d)
    case DateTime(d, _) => Some(d)
    case _ => None
  }

  /** `str(v) if v is not None else ""`. */
  function CellText(v: Cell): string {
    match v
    case Empty => ""
    case Str(s) => s
    case Num(n) => n.text
    case DateOnly(d) => IsoFormat(d)
    case DateTime(d, t) => IsoFormat(d) + " " + TimeText(t)
  }

  /** The time of day as `str()` of a datetime shows it: `hh:mm:ss`. */
  function TimeText(t: SecondOfDay): string {
    ZeroPadded(t / 3600, 2) + ":" + ZeroPadded(t % 3600 / 60, 2) + ":" + ZeroPadded(t % 60, 2)
  }

  /**
    s has the form `hh:mm:ss`: three two-digit groups separated by colons, which
    read back as the hours, minutes and seconds of t.
   */
  predicate ClockText(s: string, t: SecondOfDay) {
    |s| == 8 && s[2] == ':' && s[5] == ':'
    && IsDigits(s[..2]) && IsDigits(s[3..5]) && IsDigits(s[6..])
    && DigitsValue(s[..2]) == t / 3600
    && DigitsValue(s[3..5]) == t % 3600 / 60
    && DigitsValue(s[6..]) == t % 60
  }

  /** The time of day reads as `hh:mm:ss`. */
  lemma TimeTextShape(t: SecondOfDay)
    ensures ClockText(TimeText(t), t)
  {
    var h, m, sec := ZeroPadded(t / 3600, 2), ZeroPadded(t % 3600 / 60, 2), ZeroPadded(t % 60, 2);
    ZeroPaddedDigits(t / 3600, 2);
    ZeroPaddedDigits(t % 3600 / 60, 2);
    ZeroPaddedDigits(t % 60, 2);
    var s := TimeText(t);
    assert s == h + ":" + m + ":" + sec;
    assert s[..2] == h && s[3..5] == m && s[6..] == sec;
  }

  /** Where the two parts of `a b` lie when b has eight characters. */
  lemma SpacedParts(a: string, b: string)
    requires |b| == 8
    ensures var s := a + " " + b;
      |s| == |a| + 9 && s[..|s| - 9] == a && s[|s| - 9] == ' ' && s[|s| - 8..] == b
  {
  }

  /** s has the form `Y..Y-MM-DD hh:mm:ss` for the date d and the time of day t. */
  predicate DateTimeText(s: string, d: Date, t: SecondOfDay) {
    |s| >= 19 && IsoDateText(s[..|s| - 9], d) && s[|s| - 9] == ' ' && ClockText(s[|s| - 8..], t)
  }

  /** `str()` of a datetime is its date text, a space and `hh:mm:ss`. */
  lemma DateTimeTextForm(d: ValidDate, t: SecondOfDay)
    ensures DateTimeText(IsoFormat(d) + " " + TimeText(t), d, t)
    ensures d.year <= 9999 ==> |IsoFormat(d) + " " + TimeText(t)| == 19
  {
    IsoFormatShape(d);
    TimeTextShape(t);
    SpacedParts(IsoFormat(d), TimeText(t));
  }

  /**
    What a cell reads as: None as "", a string as itself, a number as its
    `str()` text, a date as `YYYY-MM-DD`, and a datetime as that date text
    followed by a space and `hh:mm:ss`.
   */
  lemma CellTextForms(v: Cell)
    ensures v.Empty? ==> CellText(v) == ""
    ensures v.Str? ==> CellText(v) == v.s
    ensures v.Num? ==> CellText(v) == v.n.text
    ensures v.DateOnly? ==> IsoDateText(CellText(v), v.date)
    ensures v.DateTime? ==> DateTimeText(CellText(v), v.date, v.second)
    ensures (v.DateOnly? || v.DateTime?) && v.date.year <= 9999 ==>
      |CellText(v)| == if v.DateOnly? then 10 else 19
  {
    match v
    case DateOnly(d) =>
      IsoFormatShape(d);
    case DateTime(d, t) =>
      DateTimeTextForm(d, t);
    case _ =>
  }

  /** `v not in (None, "", 0)`: a cell counts as filled unless it is None, the empty string or a zero number. */
  function Occupied(v: Cell): (filled: bool)
    ensures filled <==> !(v == Empty || v == Str("") || (v.Num? && v.n.value == 0.0))
  {
    match v
    case Empty => false
    case Str(s) => s != ""
    case Num(n) => n.value != 0.0
    case _ => true
  }
}
