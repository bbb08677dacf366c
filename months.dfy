/**
  Month sheets: each month of the year has a sheet named in German, and
  `_get_month_sheet` picks the sheet of a date's month, accepting the spelling
  "Maerz" for March when "März" is absent.
 */
module Months {
  import opened Calendar
  import opened Optional
  import opened Sheets

  /** `MONTH_DE`: the sheet names for January .. December. */
  const MonthNames: seq<string> := [
    "Januar", "Februar", "M\U{E4}rz", "April", "Mai", "Juni",
    "Juli", "August", "September", "Oktober", "November", "Dezember"]

  /** The spelling of March's sheet name without the umlaut. */
  const MarchFallback: string := "Maerz"

  /** `month_sheet_name(dt)`. */
  function MonthSheetName(d: ValidDate): (nm: string)
    ensures nm in MonthNames && nm != MarchFallback
    ensures d.month == 3 <==> nm == MonthNames[2]
  {
    MonthNames[d.month - 1]
  }

  /** The month a sheet name stands for: the inverse of `month_sheet_name`, with "Maerz" read as March. */
  function MonthOfName(nm: string): (m: Option<int>)
    ensures m.Some? ==> 1 <= m.value <= 12
  {
    if nm == MarchFallback then Some(3) else MonthIndex(nm, 0)
  }

  function MonthIndex(nm: string, i: nat): (m: Option<int>)
    requires i <= |MonthNames|
    ensures m.Some? ==> i < m.value <= 12 && MonthNames[m.value - 1] == nm
    ensures m.None? ==> forall j :: i <= j < |MonthNames| ==> MonthNames[j] != nm
    decreases |MonthNames| - i
  {
    if i == |MonthNames| then None
    else if MonthNames[i] == nm then Some(i + 1)
    else MonthIndex(nm, i + 1)
  }

  /** The twelve names are pairwise different. */
  lemma MonthNamesDistinct()
    ensures forall i, j :: 0 <= i < j < |MonthNames| ==> MonthNames[i] != MonthNames[j]
  {
  }

  /** Reading a month's sheet name back gives the month: two dates share a sheet name exactly when they share a month. */
  lemma MonthNameRoundTrip(d: ValidDate, e: ValidDate)
    ensures MonthOfName(MonthSheetName(d)) == Some(d.month)
    ensures MonthSheetName(d) == MonthSheetName(e) <==> d.month == e.month
  {
    MonthNamesDistinct();
    var m := MonthIndex(MonthSheetName(d), 0);
    assert m.Some?;
  }

  /**
    The specification of `_get_month_sheet`: the name, among the workbook's sheet
    names, of the sheet for d's month, or None.
   */
  function MonthSheetOf(wb: map<string, Sheet>, d: ValidDate): (r: Option<string>)
    ensures r.Some? ==> r.value in wb
    ensures r.None? <==> MonthSheetName(d) !in wb && !(d.month == 3 && MarchFallback in wb)
    ensures MonthSheetName(d) in wb ==> r == Some(MonthSheetName(d))
    ensures r.Some? && r.value != MonthSheetName(d) ==> d.month == 3 && r.value == MarchFallback
  {
    var nm := MonthSheetName(d);
    if nm in wb then Some(nm)
    else if nm == MonthNames[2] && MarchFallback in wb then Some(MarchFallback)
    else None
  }

  /** The sheet chosen for a date always stands for that date's month. */
  lemma MonthSheetMatchesMonth(wb: map<string, Sheet>, d: ValidDate)
    ensures MonthSheetOf(wb, d).Some? ==> MonthOfName(MonthSheetOf(wb, d).value) == Some(d.month)
  {
    MonthNameRoundTrip(d, d);
  }

  /** The choice depends only on which sheet names exist. */
  lemma MonthSheetByNames(wb: map<string, Sheet>, wb': map<string, Sheet>, d: ValidDate)
    requires wb.Keys == wb'.Keys
    ensures MonthSheetOf(wb', d) == MonthSheetOf(wb, d)
  {
  }
}
