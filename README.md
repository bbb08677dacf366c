# Stundenapp spreadsheet writer, modelled in Dafny

Stundenapp books employees' working time into a shared `.xlsm` workbook. Each
month has its own sheet, named with the German month name ("Januar" ..
"Dezember"; the March sheet may also be called "Maerz").

On a month sheet:

- Row 3 holds the employee names, starting at column F. A name may be merged
  across several columns, which then form that employee's block.
- Row 4 holds the project captions of the block's columns.
- The block's last column takes absence types.
- Column C, from row 5 down, holds the dates.

A separate sheet "Anpassung" lists the selectable employees (column M),
projects (column N) and absence types (column P).

This project models the core of `excel_io.py`:

- **Month sheet.** Choosing the sheet for a date, with the March fallback.
- **Layout discovery.** The merge-aware reading of header cells. The scan for
  an employee's block, which stops after 15 empty header cells in a row.
  Finding the date row and the project column.
- **Writing one day.** An absence writes the absence type and clears the
  project cells of the row. Hours are written into the project column and
  clear the absence cell.
- **`write_range`.** The swap of reversed dates, and the walk over every
  Monday to Friday of the range with `ok` / `fail` counts.
- **Reading.** The filled-days query behind the calendar marking, and
  `load_lists`.

Model types:

- **Workbook** is a class whose `sheets` field, a map from sheet name to sheet,
  is updated in place by the booking methods.
- **Sheet** is a value: a map from (row, column) to a cell, the list of merged
  ranges, and `max_row` / `max_column`.
- **Cell** holds one of None, a string, a number (its value and the text
  `str()` gives for it), a date or a datetime.
- **Dates** follow Python's `datetime.date`: the proleptic Gregorian calendar,
  `toordinal`, `weekday`, lexicographic comparison and `+ timedelta(days=1)`.

Every loop of the modelled functions is a method with a `while` or `for` loop. Each method
is proved equal to a specification function, and the properties are proved
about those functions. Opening, saving and closing the workbook are I/O and
are not modelled. Every operation takes the opened workbook's contents as a
parameter, or works on the `Workbook` object.

## Model

| member | source | states |
|---|---|---|
| Calendar.NextDay | excel_io.py:176 | the day after `d` is strictly later than `d` in Python's date order |
| Calendar.NextDayOrdinal | excel_io.py:176 | adding one day raises `toordinal()` by exactly one, across month and year ends |
| Calendar.LessIffOrdinal | excel_io.py:162-170 | Python's comparison of dates agrees with the order of their ordinals, both ways, and equal dates have equal ordinals |
| Strings.NormalizeKey | excel_io.py:57-58 | the key is the stripped text lower-cased, as long as the stripped text, and blank exactly when the text is all white space |
| Strings.StripShape | excel_io.py:58 | `strip()` returns the middle of the string: what it drops on both sides is all white space, and the result neither starts nor ends with white space |
| Strings.StripBlank | excel_io.py:58 | stripping leaves nothing exactly when the text is all white space |
| Strings.StripIdempotent | excel_io.py:158-160 | stripping an already stripped name changes nothing |
| Strings.NormalizeIgnoresPadding | excel_io.py:57-58 | the comparison key ignores any white space around the text |
| Strings.NormalizeIgnoresCase | excel_io.py:57-58 | the comparison key does not depend on upper or lower case |
| Strings.NormalizeIdempotent | excel_io.py:57-58 | normalising a key again gives the same key |
| Sheets.AsDate | excel_io.py:47-54 | a date is found exactly for date and datetime cells, and it is the cell's calendar date; anything else gives None |
| Sheets.CellTextForms | excel_io.py:217 | `str(v) if v is not None else ""`, the conversion also used at lines 317, 320 and 329: None reads as "", a string as itself, a number as its `str()` text; a date reads as digits, `-`, two digits, `-`, two digits, whose groups are its year, month and day (10 characters for years up to 9999); a datetime reads as that date text, a space and `hh:mm:ss` of its time of day (19 characters) |
| Sheets.TimeTextShape | excel_io.py:217 | the time of day of a datetime reads as `hh:mm:ss`: eight characters, colons at positions 2 and 5, and two-digit groups that read back as the hours, minutes and seconds |
| Sheets.DateTimeTextForm | excel_io.py:217 | `str()` of a datetime is the date text, one space and the `hh:mm:ss` text, 19 characters for years up to 9999 |
| Calendar.DecimalDigitsValue | excel_io.py:217 | the decimal digits `str()` gives for a non-negative number read back as that number |
| Calendar.DecimalDigitsLength | excel_io.py:217 | a number below 10^w has at most w digits |
| Calendar.ZeroPaddedDigits | excel_io.py:217 | a zero-padded number is all digits, reads back as the number, and is exactly w characters long when the number is below 10^w |
| Calendar.IsoFormatShape | excel_io.py:217 | `str(d)` of a date is year digits, `-`, two month digits, `-`, two day digits, each group reading back as its field; exactly 10 characters for years up to 9999 |
| Calendar.IsoFormatInjective | excel_io.py:217 | different dates read as different texts |
| Sheets.Occupied | excel_io.py:133 | a cell counts as filled exactly when it is not None, not the empty string and not a zero number |
| Sheets.PutEffect | excel_io.py:251-261 | assigning a cell sets exactly that cell; every other cell keeps its value; the cell becomes allocated |
| Months.MonthSheetName | excel_io.py:43-44 | the name is one of the twelve German month names, never "Maerz", and it is "März" exactly for March |
| Months.MonthNamesDistinct | excel_io.py:27-40 | no two months share a name |
| Months.MonthNameRoundTrip | excel_io.py:27-44 | the name leads back to its month; two dates get the same name exactly when they are in the same month |
| Months.MonthSheetOf | excel_io.py:200-206 | the month's name is used when the workbook has it; otherwise "Maerz" only for March; None exactly when neither applies; the result is always a sheet of the workbook |
| Months.MonthSheetMatchesMonth | excel_io.py:200-206 | the sheet chosen always stands for the date's month |
| DateRows.DateRowIsFirstMatch | excel_io.py:267-274 | the row found is the smallest row from 5 to `max_row` whose column C holds the date (a datetime counts by its date); 0 exactly when none does |
| DateRows.DateRowStable | excel_io.py:267-274 | the row found depends only on column C and `max_row` |
| DateRows.FindDateRow | excel_io.py:267-274 | the scan returns the specified row |
| Layout.Block.AbsCol | excel_io.py:66-68 | the absence column is the block's last column |
| Layout.BlockColumns | excel_io.py:66-68 | each block column is the absence column or a project column, never both; a one-column block has no project column |
| Layout.FirstMergeIndex | excel_io.py:305-309 | the merged range chosen is the first one containing the cell; no earlier one contains it |
| Layout.DisjointMergesFound | excel_io.py:305-309 | when the merged ranges do not overlap at the cell, the range containing it is the one found |
| Layout.HeaderAt | excel_io.py:302-320 | the next column to look at always lies right of the current column |
| Layout.HeaderCellValueAndWidth | excel_io.py:302-320 | inside a merged range: the stripped text of its top-left cell, its width and the column after it; otherwise: the cell's own stripped text, width 1 and the next column |
| Layout.ScanIsFirstMatch | excel_io.py:279-300 | the block found starts at the first visited header whose key equals the employee's key, with that header's width; none exactly when no visited header matches |
| Layout.EmptyRunEndsScan | excel_io.py:289-298 | a run of 15 empty headers can only come at the end of the columns the scan visits, and a scan that starts with 15 empty headers visits exactly 15 |
| Layout.EarlyStopMeansEmptyRun | excel_io.py:289-298 | a scan that ends before `max_column` has just passed 15 empty headers in a row |
| Layout.ScanViewBounds | excel_io.py:279-300 | a block found starts between the first visited column and `max_column` at a header matching the key |
| Layout.BlockOfBounds | excel_io.py:279-300 | a block found starts in columns F .. `max_column`, its header matches the non-blank employee key, and its width is that header's merged width |
| Layout.BlockOfStable | excel_io.py:279-300 | a block found stays the block found when rows 1-4 and the merges are unchanged and `max_column` does not shrink |
| Layout.FindEmployeeBlock | excel_io.py:279-300 | the loop returns the specified block |
| Layout.ProjectColIsFirstMatch | excel_io.py:325-331 | the project column found is the first project column whose row-4 key equals the project's key; 0 exactly when none does |
| Layout.FindProjectCol | excel_io.py:325-331 | the loop returns the specified column |
| Layout.ProjectColStable | excel_io.py:325-331 | the project column depends only on row 4: sheets that agree on row 4 find the same project column in a block |
| Layout.NarrowBlockHasNoProject | excel_io.py:325-331 | a one-column block never yields a project column |
| Lists.ColumnTexts | excel_io.py:214-217 | one text per row from the first row to `max_row`, the stripped `str()` of the cell or "" for None |
| Lists.DistinctMembers | excel_io.py:211-221 | the list holds exactly the non-blank texts of the column |
| Lists.DistinctHasNoDuplicates | excel_io.py:211-221 | no text appears twice in the list |
| Lists.DistinctKeepsFirstSeenOrder | excel_io.py:211-221 | the list is in order of first occurrence in the column |
| Lists.UniqueFromCol | excel_io.py:211-221 | the loop with its `seen` set builds the specified list |
| Lists.ListsOf | excel_io.py:84-93 | loading fails exactly when the workbook has no sheet "Anpassung" |
| Lists.LoadedListsAreColumns | excel_io.py:84-93 | each loaded list holds exactly the non-blank texts of columns M, N and P from row 4 on |
| Lists.LoadLists | excel_io.py:84-93 | the operation returns the specified lists or the error |
| DateRanges.Span | excel_io.py:162-163 | the two dates come out in order, and they are the two dates given |
| DateRanges.SpanSymmetric | excel_io.py:162-163 | giving the dates in either order gives the same span |
| DateRanges.DaysFromShape | excel_io.py:169-176 | the walk has one day per ordinal from the first to the last date, each the day after the one before |
| DateRanges.DaysFromMembers | excel_io.py:169-176 | a date is walked exactly when it lies between the two dates |
| DateRanges.WeekdaysMembers | excel_io.py:171 | exactly the Monday .. Friday dates of the walk are kept |
| DateRanges.WorkdaysBetweenMembers | excel_io.py:162-176 | a date is attempted exactly when it is a Monday .. Friday between the two dates, whichever is given first |
| DateRanges.WorkdaysBetweenDistinct | excel_io.py:169-176 | no date is attempted twice: the walk's ordinals strictly increase |
| DateRanges.WeekdayOfNextDay | excel_io.py:171-176 | the day after a date has the next weekday, Sunday wrapping round to Monday |
| DateRanges.WeekdaysCount | excel_io.py:169-176 | the walk keeps as many dates as there are Monday .. Friday dates among its consecutive days |
| DateRanges.WorkdaysBetweenCount | excel_io.py:162-176 | the number of attempted dates is the count of Monday .. Friday dates from the earlier to the later date |
| DateRanges.SevenDaysFiveWorkdays | excel_io.py:171 | seven consecutive days, whatever weekday they start on, hold five Monday .. Friday dates |
| DateRanges.SevenDaysGiveFive | excel_io.py:162-176 | a range of seven days, given in either order, attempts five dates |
| DateRanges.WeekHasFiveWorkdays | excel_io.py:162-176 | a range from a Monday to its Friday or to its Sunday attempts five dates |
| Writer.ClearColsEffect | excel_io.py:252-253 | the loop empties exactly the project cells of the row; every other cell keeps its value |
| Writer.ClearRow | excel_io.py:252-253 | the clearing loop produces the specified sheet |
| Writer.MarkAbsentEffect | excel_io.py:250-254 | after an absence the absence cell holds the absence type, the project cells of the row are empty, and only that row of the block changed |
| Writer.BookHoursEffect | excel_io.py:260-261 | after booking hours the project cell holds them, the absence cell is empty, and no other cell changed |
| Writer.WriteDayOutcome | excel_io.py:236-262 | a day is booked exactly when the month sheet, the date row, the block and, for hours, the project column are found; a failed day changes nothing; a blank name always fails; no sheet is added or removed |
| Writer.AbsenceEffect | excel_io.py:250-254 | an absence succeeds once the row and block are found, writes the absence into that row of the block only, and leaves every other sheet alone |
| Writer.ProjectEffect | excel_io.py:256-262 | a booking of hours writes them into a project column of the block, clears the absence cell, changes nothing outside that row of the block and leaves every other sheet alone |
| Writer.MarkAbsentTwice | excel_io.py:250-254 | writing the same absence twice is writing it once |
| Writer.BookHoursTwice | excel_io.py:260-261 | writing the same hours twice is writing them once |
| Writer.LayoutSurvivesWrite | excel_io.py:236-262 | after a write the same date row, block and project columns are found again |
| Writer.WriteDayIdempotent | excel_io.py:226-262 | booking the same day a second time gives the same outcome and the same workbook |
| Writer.WriteDayTouchesOnlyDateRow | excel_io.py:226-262 | a booking never changes column C and changes cells only in a row that holds the booked date |
| Writer.ApplyDaysCounts | excel_io.py:166-175 | every attempted date adds one to `ok` or to `fail`; no sheet is added or removed |
| Writer.UnattemptedRowKept | excel_io.py:169-176 | a row holding a date that is not attempted keeps all its cells |
| Writer.WriteKeepsOthers | excel_io.py:226-262 | booking one date changes no cell that matters for another date: rows 1-4, column C, rows holding the other date, the merges and `max_row` stay, and `max_column` does not shrink |
| Writer.LookupsKept | excel_io.py:236-258 | where nothing that matters for a date has changed, its booking finds the same sheet, date row, block and project columns |
| Writer.ApplyDaysBooks | excel_io.py:169-176 | in a list of dates without repeats, a date whose booking succeeds on the starting workbook is still booked after the whole list |
| Writer.RangeBooksEachDay | excel_io.py:169-176 | after `write_range`, every attempted date whose booking succeeds on the workbook as given holds, in its date row, the absence text with the project cells empty, or the hours in the project column with the absence cell empty, and the row still holds the date |
| Writer.WriteKeepsLayout | excel_io.py:226-262 | every booking keeps the merges, `max_row`, rows 1-4 and column C of every sheet, and `max_column` does not shrink |
| Writer.MarkAbsentNoop | excel_io.py:250-254 | writing an absence over a row that already holds it, with the project cells already cleared, leaves the sheet as it is |
| Writer.BookHoursNoop | excel_io.py:260-261 | writing hours over a row that already holds them, with the absence cell already cleared, leaves the sheet as it is: hours are overwritten, not added |
| Writer.WriteDayKeepsRow | excel_io.py:226-262 | booking a date keeps every allocated cell, and column C, of each row that does not hold that date |
| Writer.NoBlockNoWrites | excel_io.py:169-176 | a sheet on which the employee has no block is never written by any list of bookings |
| Writer.RepeatOn | excel_io.py:226-262 | on a workbook laid out as before, still holding what an earlier booking of the date wrote, booking that date again repeats the earlier success or failure and changes nothing |
| Writer.RepeatFirstDay | excel_io.py:169-176 | after a list of dates without repeats is booked, booking its first date again repeats that date's outcome and changes nothing |
| Writer.ApplyDaysAgain | excel_io.py:169-176 | booking a list of dates without repeats a second time, over the first pass's result, changes nothing and adds the same numbers to `ok` and `fail` |
| Writer.RangeOutcomeIdempotent | excel_io.py:144-182 | `write_range` is idempotent: running it again with the same arguments on the workbook it produced leaves every cell, merge and bound as it is and returns the same `ok` and `fail` |
| Writer.RangeLoopBooksWorkdays | excel_io.py:169-176 | the day-by-day loop books exactly the Monday .. Friday dates of the walk, earliest first |
| Writer.RangeOutcomeSymmetric | excel_io.py:162-163 | giving the two dates in either order books the same days with the same counts |
| Writer.RangeOutcomeCounts | excel_io.py:166-182 | `ok + fail` is the number of Monday .. Friday dates in the range; no sheet is added or removed |
| Writer.WeekRangeCounts | excel_io.py:166-182 | booking a week from Monday to Friday or to Sunday gives `ok + fail == 5` |
| Writer.RangeKeepsOtherRows | excel_io.py:169-176 | rows holding a Saturday, a Sunday or a date outside the range keep every cell |
| Writer.Workbook.WriteOneDay | excel_io.py:226-262 | the workbook and the result after the call are those of `WriteDay`, the specification of `_write_one_day`, on the workbook before the call |
| Writer.Workbook.WriteRange | excel_io.py:144-182 | the workbook and the counts after the call are those of booking every Monday .. Friday of the range in order |
| FilledDays.FilledDaysOf | excel_io.py:100-137 | every marked date lies in the month asked for |
| FilledDays.FilledDayIff | excel_io.py:122-135 | with sheet and block found, a date is marked exactly when it is in the month and a row from 5 to `max_row` holds it with some block cell that is not None, "" or 0 |
| FilledDays.BookedDayIsFilled | excel_io.py:100-137 | after a successful booking of a non-empty absence or of non-zero hours, the booked date is marked in its month |
| FilledDays.RowIsFilled | excel_io.py:131-135 | the cell scan with its early exit answers whether some block cell of the row is filled |
| FilledDays.GetFilledDaysForEmployee | excel_io.py:100-137 | the query returns the specified set of dates |

## Left out

- Opening the workbook with retries and waits (`_open_workbook`), saving and closing it: file I/O. Every operation takes the opened workbook's contents as a value or works on the `Workbook` object, and `WriteRange` stops short of the final save.
- `app.py`, the form and calendar around the core: presentation only.
- Number formatting: `float(hrs)` and the text `str()` gives for a number are not computed. A number cell carries its value and its text as given.
- `None` arguments (`emp or ""` and the like): strings in the model are never None.
- Lower-casing is modelled for ASCII and Latin-1 capitals only. Python's full Unicode `str.lower()` is not.
- Dates after year 9999, where Python raises `OverflowError`, are not modelled. Nor are time zones, or microseconds beyond whole seconds.
- Cell values other than None, strings, numbers, dates and datetimes (booleans, times, formulas) are not modelled.
- Reading a cell with openpyxl's `ws.cell` allocates it. This can in principle grow `max_row` / `max_column` during a scan; model reads never change a sheet.
- Writing into a covered cell of a merged range, which openpyxl refuses, is not modelled: every write succeeds.
- The merged ranges are a list, scanned first to last. A lemma covers the usual case of non-overlapping ranges, where the order does not matter.
- A sheet is a value inside the workbook's map. Two references to one worksheet object and identity of worksheet objects are not modelled.
- `load_lists` raises `RuntimeError` when the workbook has no sheet "Anpassung" (excel_io.py:87-88), and `LoadLists` returns a failure carrying the same message. The caller catches the error, shows it and falls back to built-in default lists (app.py:100-104); that fallback belongs to `app.py` and is not modelled.
