/**
  Calendar dates as Python's `datetime.date` has them: the proleptic Gregorian
  calendar, compared by (year, month, day), numbered by `toordinal()` (day 1 is
  0001-01-01, a Monday) and stepped one day at a time by `+ timedelta(days=1)`.
 */
module Calendar {

  datatype Date = Date(year: int, month: int, day: int)

  predicate IsLeapYear(y: int) {
    y % 4 == 0 && (y % 100 != 0 || y % 400 == 0)
  }

  function DaysInMonth(y: int, m: int): (n: nat)
    requires 1 <= m <= 12
    ensures 28 <= n <= 31
    ensures m == 2 ==> (n == 29 <==> IsLeapYear(y))
  {
    if m == 2 then (if IsLeapYear(y) then 29 else 28)
    else if m == 4 || m == 6 || m == 9 || m == 11 then 30
    else 31
  }

  function YearLength(y: int): nat {
    if IsLeapYear(y) then 366 else 365
  }

  predicate IsValid(d: Date) {
    1 <= d.year && 1 <= d.month <= 12 && 1 <= d.day <= DaysInMonth(d.year, d.month)
  }

  /** A date Python can construct (the upper year bound 9999 is not modelled). */
  type ValidDate = d: Date | IsValid(d) witness Date(1, 1, 1)

  /** Python's date comparison: lexicographic on (year, month, day). */
  predicate Less(a: Date, b: Date) {
    a.year < b.year
    || (a.year == b.year && a.month < b.month)
    || (a.year == b.year && a.month == b.month && a.day < b.day)
  }

  predicate LessEq(a: Date, b: Date) {
    Less(a, b) || a == b
  }

  function DaysBeforeYear(y: int): int
    requires 1 <= y
  {
    var p := y - 1;
    p * 365 + p / 4 - p / 100 + p / 400
  }

  function DaysBeforeMonth(y: int, m: int): nat
    requires 1 <= m <= 12
  {
    var table := [0, 0, 31, 59, 90, 120, 151, 181, 212, 243, 273, 304, 334];
    table[m] + (if m > 2 && IsLeapYear(y) then 1 else 0)
  }

  /** `date.toordinal()`. */
  function Ordinal(d: ValidDate): int {
    DaysBeforeYear(d.year) + DaysBeforeMonth(d.year, d.month) + d.day
  }

  /** `date.weekday()`: Monday is 0, Sunday is 6. */
  function Weekday(d: ValidDate): (w: nat)
    ensures w < 7
  {
    (Ordinal(d) + 6) % 7
  }

  predicate IsWorkday(d: ValidDate) {
    Weekday(d) <= 4
  }

  /** `d + timedelta(days=1)`. */
  function NextDay(d: ValidDate): (e: ValidDate)
    ensures Less(d, e)
  {
    if d.day < DaysInMonth(d.year, d.month) then Date(d.year, d.month, d.day + 1)
    else if d.month < 12 then Date(d.year, d.month + 1, 1)
    else Date(d.year + 1, 1, 1)
  }

  /** Stepping from y - 1 to y passes one more multiple of k exactly when k divides y. */
  lemma MultiplesStep(y: int)
    ensures y / 4 == (y - 1) / 4 + (if y % 4 == 0 then 1 else 0)
    ensures y / 100 == (y - 1) / 100 + (if y % 100 == 0 then 1 else 0)
    ensures y / 400 == (y - 1) / 400 + (if y % 400 == 0 then 1 else 0)
  {
  }

  /** A year's length as the count of the three divisibility tests it passes. */
  lemma YearLengthByDivisors(y: int)
    ensures YearLength(y) == 365 + (if y % 4 == 0 then 1 else 0) - (if y % 100 == 0 then 1 else 0)
      + (if y % 400 == 0 then 1 else 0)
  {
    if y % 400 == 0 {
      assert y == 100 * (4 * (y / 400)) && y == 4 * (100 * (y / 400));
    } else if y % 100 == 0 {
      assert y == 4 * (25 * (y / 100));
    }
  }

  lemma YearStep(y: int)
    requires 1 <= y
    ensures DaysBeforeYear(y + 1) == DaysBeforeYear(y) + YearLength(y)
  {
    MultiplesStep(y);
    YearLengthByDivisors(y);
  }

  lemma YearMonotone(y1: int, y2: int)
    requires 1 <= y1 <= y2
    ensures DaysBeforeYear(y1) + 365 * (y2 - y1) <= DaysBeforeYear(y2)
    decreases y2 - y1
  {
    if y1 < y2 {
      YearMonotone(y1, y2 - 1);
      YearStep(y2 - 1);
    }
  }

  /** A date's position inside its year lies between 1 and the year's length. */
  lemma DayOfYearBounds(d: ValidDate)
    ensures 1 <= DaysBeforeMonth(d.year, d.month) + d.day <= YearLength(d.year)
    ensures d.month < 12 ==>
      DaysBeforeMonth(d.year, d.month) + DaysInMonth(d.year, d.month) == DaysBeforeMonth(d.year, d.month + 1)
  {
  }

  lemma MonthOrder(y: int, m1: int, day1: int, m2: int)
    requires 1 <= m1 < m2 <= 12 && 1 <= day1 <= DaysInMonth(y, m1)
    ensures DaysBeforeMonth(y, m1) + day1 <= DaysBeforeMonth(y, m2)
  {
  }

  /** Stepping one day advances the ordinal by exactly one. */
  lemma NextDayOrdinal(d: ValidDate)
    ensures Ordinal(NextDay(d)) == Ordinal(d) + 1
  {
    if d.day == DaysInMonth(d.year, d.month) && d.month == 12 {
      YearStep(d.year);
    }
  }

  /** Python's lexicographic comparison of dates agrees with the order of their ordinals. */
  lemma {:induction false} LessIffOrdinal(a: ValidDate, b: ValidDate)
    ensures Less(a, b) <==> Ordinal(a) < Ordinal(b)
    ensures a == b <==> Ordinal(a) == Ordinal(b)
  {
    if Less(a, b) {
      OrdinalOrdered(a, b);
    } else if Less(b, a) {
      OrdinalOrdered(b, a);
    }
  }

  lemma {:induction false} OrdinalOrdered(a: ValidDate, b: ValidDate)
    requires Less(a, b)
    ensures Ordinal(a) < Ordinal(b)
  {
    if a.year < b.year {
      DayOfYearBounds(a);
      YearStep(a.year);
      YearMonotone(a.year + 1, b.year);
    } else if a.month < b.month {
      MonthOrder(a.year, a.month, a.day, b.month);
    }
  }

  /** The decimal digits of `n`, as `str(n)` gives them for a non-negative int. */
  function DecimalDigits(n: nat): (s: string)
    ensures 1 <= |s|
    ensures forall i :: 0 <= i < |s| ==> '0' <= s[i] <= '9'
  {
    if n < 10 then [(48 + n) as char] else DecimalDigits(n / 10) + [(48 + n % 10) as char]
  }

  /** `"%0*d" % (width, n)`: the digits of `n`, left-padded with zeros to `width`. */
  function ZeroPadded(n: nat, width: nat): (s: string)
    ensures |s| >= width
  {
    var digits := DecimalDigits(n);
    if |digits| >= width then digits else seq(width - |digits|, _ => '0') + digits
  }

  /** `str(d)` for a date: `YYYY-MM-DD`. */
  function IsoFormat(d: ValidDate): (s: string)
    ensures |s| >= 10
  {
    ZeroPadded(d.year, 4) + "-" + ZeroPadded(d.month, 2) + "-" + ZeroPadded(d.day, 2)
  }

  /** Every character is a decimal digit. */
  predicate IsDigits(s: string) {
    forall i :: 0 <= i < |s| ==> '0' <= s[i] <= '9'
  }

  function DigitValue(c: char): nat {
    if '0' <= c <= '9' then c as int - '0' as int else 0
  }

  /** The number a string of decimal digits stands for, as `int(s)` reads it. */
  function DigitsValue(s: string): nat
    decreases |s|
  {
    if s == [] then 0 else DigitsValue(s[..|s| - 1]) * 10 + DigitValue(s[|s| - 1])
  }

  function Pow10(k: nat): nat {
    if k == 0 then 1 else 10 * Pow10(k - 1)
  }

  /** The digits of n read back as n. */
  lemma {:induction false} DecimalDigitsValue(n: nat)
    ensures DigitsValue(DecimalDigits(n)) == n
  {
    if n >= 10 {
      DecimalDigitsValue(n / 10);
      var s := DecimalDigits(n / 10) + [(48 + n % 10) as char];
      assert s[..|s| - 1] == DecimalDigits(n / 10);
    } else {
      assert DecimalDigits(n)[..0] == [];
    }
  }

  /** A number below 10^w has at most w digits. */
  lemma {:induction false} DecimalDigitsLength(n: nat, w: nat)
    requires 1 <= w && n < Pow10(w)
    ensures |DecimalDigits(n)| <= w
  {
    if n >= 10 {
      assert w != 1;
      assert n / 10 < Pow10(w - 1);
      DecimalDigitsLength(n / 10, w - 1);
    }
  }

  lemma {:induction false} ZerosValue(k: nat)
    ensures DigitsValue(seq(k, _ => '0')) == 0
  {
    if k > 0 {
      assert seq(k, _ => '0')[..k - 1] == seq(k - 1, _ => '0');
      ZerosValue(k - 1);
    }
  }

  /** Leading zeros do not change the number a digit string stands for. */
  lemma {:induction false} LeadingZeros(k: nat, s: string)
    ensures DigitsValue(seq(k, _ => '0') + s) == DigitsValue(s)
    decreases |s|
  {
    var z := seq(k, _ => '0');
    if s == [] {
      assert z + s == z;
      ZerosValue(k);
    } else {
      assert (z + s)[..|z + s| - 1] == z + s[..|s| - 1];
      LeadingZeros(k, s[..|s| - 1]);
    }
  }

  /** The padded text is all digits and reads back as n; below 10^w it is exactly w long. */
  lemma ZeroPaddedDigits(n: nat, w: nat)
    ensures IsDigits(ZeroPadded(n, w)) && DigitsValue(ZeroPadded(n, w)) == n
    ensures 1 <= w && n < Pow10(w) ==> |ZeroPadded(n, w)| == w
  {
    var digits := DecimalDigits(n);
    DecimalDigitsValue(n);
    if |digits| < w {
      LeadingZeros(w - |digits|, digits);
    }
    if 1 <= w && n < Pow10(w) {
      DecimalDigitsLength(n, w);
    }
  }

  /**
    s has the form `Y..Y-MM-DD`: digits, a dash, two digits, a dash, two digits,
    whose groups read back as d's year, month and day.
   */
  predicate IsoDateText(s: string, d: Date) {
    |s| >= 10 && s[|s| - 6] == '-' && s[|s| - 3] == '-'
    && IsDigits(s[..|s| - 6]) && IsDigits(s[|s| - 5..|s| - 3]) && IsDigits(s[|s| - 2..])
    && DigitsValue(s[..|s| - 6]) == d.year
    && DigitsValue(s[|s| - 5..|s| - 3]) == d.month
    && DigitsValue(s[|s| - 2..]) == d.day
  }

  /** Where the three groups of `a-bb-cc` lie. */
  lemma DashedGroups(a: string, b: string, c: string)
    requires |b| == 2 && |c| == 2
    ensures var s := a + "-" + b + "-" + c;
      |s| == |a| + 6 && s[|s| - 6] == '-' && s[|s| - 3] == '-'
      && s[..|s| - 6] == a && s[|s| - 5..|s| - 3] == b && s[|s| - 2..] == c
  {
  }

  /** `str(d)` is `YYYY-MM-DD` for d, exactly ten characters for the years Python allows. */
  lemma IsoFormatShape(d: ValidDate)
    ensures IsoDateText(IsoFormat(d), d)
    ensures d.year <= 9999 ==> |IsoFormat(d)| == 10
  {
    ZeroPaddedDigits(d.year, 4);
    ZeroPaddedDigits(d.month, 2);
    ZeroPaddedDigits(d.day, 2);
    DashedGroups(ZeroPadded(d.year, 4), ZeroPadded(d.month, 2), ZeroPadded(d.day, 2));
  }

  /** A date text names a single date. */
  lemma IsoDateTextUnique(s: string, d: Date, e: Date)
    requires IsoDateText(s, d) && IsoDateText(s, e)
    ensures d == e
  {
  }

  /** Different dates give different texts. */
  lemma IsoFormatInjective(d: ValidDate, e: ValidDate)
    ensures IsoFormat(d) == IsoFormat(e) ==> d == e
  {
    IsoFormatShape(d);
    IsoFormatShape(e);
    if IsoFormat(d) == IsoFormat(e) {
      IsoDateTextUnique(IsoFormat(d), d, e);
    }
  }
}
