/**
  The days `write_range` walks: from the earlier to the later of two dates,
  one day at a time, keeping Monday to Friday.
 */
module DateRanges {
  import opened Calendar

  /** `if d_to < d_from: d_from, d_to = d_to, d_from`: the two dates in order. */
  function Span(dFrom: ValidDate, dTo: ValidDate): (s: (ValidDate, ValidDate))
    ensures LessEq(s.0, s.1)
    ensures {s.0, s.1} == {dFrom, dTo}
  {
    if Less(dTo, dFrom) then (dTo, dFrom) else (dFrom, dTo)
  }

  /** Swapping the two dates gives the same span. */
  lemma SpanSymmetric(a: ValidDate, b: ValidDate)
    ensures Span(a, b) == Span(b, a)
  {
    LessIffOrdinal(a, b);
  }

  /** The days lo, lo + 1, ..., hi; none when hi is before lo. */
  function DaysFrom(lo: ValidDate, hi: ValidDate): seq<ValidDate>
    decreases Ordinal(hi) - Ordinal(lo)
  {
    LessIffOrdinal(hi, lo);
    if Less(hi, lo) then []
    else
      NextDayOrdinal(lo);
      [lo] + DaysFrom(NextDay(lo), hi)
  }

  /** The walk holds Ordinal(hi) - Ordinal(lo) + 1 days, each the day after the one before. */
  lemma {:induction false} DaysFromShape(lo: ValidDate, hi: ValidDate)
    ensures |DaysFrom(lo, hi)| == if Less(hi, lo) then 0 else Ordinal(hi) - Ordinal(lo) + 1
    ensures forall i :: 0 <= i < |DaysFrom(lo, hi)| ==> Ordinal(DaysFrom(lo, hi)[i]) == Ordinal(lo) + i
    ensures forall i :: 0 <= i < |DaysFrom(lo, hi)| - 1 ==> DaysFrom(lo, hi)[i + 1] == NextDay(DaysFrom(lo, hi)[i])
    decreases Ordinal(hi) - Ordinal(lo)
  {
    LessIffOrdinal(hi, lo);
    if !Less(hi, lo) {
      NextDayOrdinal(lo);
      var rest := DaysFrom(NextDay(lo), hi);
      DaysFromShape(NextDay(lo), hi);
      assert DaysFrom(lo, hi) == [lo] + rest;
      LessIffOrdinal(hi, NextDay(lo));
      assert rest != [] ==> rest[0] == NextDay(lo);
    }
  }

  /** A date is walked exactly when it lies between lo and hi. */
  lemma {:induction false} DaysFromMembers(lo: ValidDate, hi: ValidDate, d: ValidDate)
    ensures d in DaysFrom(lo, hi) <==> LessEq(lo, d) && LessEq(d, hi)
    decreases Ordinal(hi) - Ordinal(lo)
  {
    LessIffOrdinal(hi, lo);
    LessIffOrdinal(lo, d);
    LessIffOrdinal(d, hi);
    if !Less(hi, lo) {
      NextDayOrdinal(lo);
      DaysFromMembers(NextDay(lo), hi, d);
      LessIffOrdinal(NextDay(lo), d);
      assert DaysFrom(lo, hi) == [lo] + DaysFrom(NextDay(lo), hi);
    }
  }

  /** The days of `ds` that fall on Monday .. Friday, in order. */
  function Weekdays(ds: seq<ValidDate>): seq<ValidDate> {
    if ds == [] then []
    else (if IsWorkday(ds[0]) then [ds[0]] else []) + Weekdays(ds[1..])
  }

  /** Weekdays keeps exactly the workdays of `ds`. */
  lemma {:induction false} WeekdaysMembers(ds: seq<ValidDate>)
    ensures forall d :: d in Weekdays(ds) <==> d in ds && IsWorkday(d)
    ensures |Weekdays(ds)| <= |ds|
  {
    if ds != [] {
      WeekdaysMembers(ds[1..]);
      assert ds == [ds[0]] + ds[1..];
    }
  }

  /** The workdays `write_range` attempts: the Monday .. Friday dates from the earlier to the later date. */
  function WorkdaysBetween(dFrom: ValidDate, dTo: ValidDate): seq<ValidDate> {
    var s := Span(dFrom, dTo);
    Weekdays(DaysFrom(s.0, s.1))
  }

  /** A date is attempted exactly when it is a workday between the two dates, whichever comes first. */
  lemma WorkdaysBetweenMembers(dFrom: ValidDate, dTo: ValidDate, d: ValidDate)
    ensures d in WorkdaysBetween(dFrom, dTo) <==>
      IsWorkday(d) && ((LessEq(dFrom, d) && LessEq(d, dTo)) || (LessEq(dTo, d) && LessEq(d, dFrom)))
  {
    var s := Span(dFrom, dTo);
    WeekdaysMembers(DaysFrom(s.0, s.1));
    DaysFromMembers(s.0, s.1, d);
    LessIffOrdinal(dFrom, d);
    LessIffOrdinal(dTo, d);
    LessIffOrdinal(dFrom, dTo);
  }

  /** The number of Monday .. Friday dates among n consecutive days, the first of which has weekday k. */
  function WorkdayCount(k: nat, n: nat): nat
    requires k < 7
    decreases n
  {
    if n == 0 then 0 else (if k <= 4 then 1 else 0) + WorkdayCount(NextWeekday(k), n - 1)
  }

  /** The weekday after weekday k, Sunday wrapping round to Monday. */
  function NextWeekday(k: nat): (k': nat)
    requires k < 7
    ensures k' < 7
  {
    if k == 6 then 0 else k + 1
  }

  lemma ModSucc(o: int)
    ensures (o + 7) % 7 == if (o + 6) % 7 == 6 then 0 else (o + 6) % 7 + 1
  {
  }

  /** One day later the weekday is the next weekday. */
  lemma WeekdayOfNextDay(d: ValidDate)
    ensures Weekday(NextDay(d)) == NextWeekday(Weekday(d))
  {
    NextDayOrdinal(d);
    ModSucc(Ordinal(d));
  }

  /** The walk from lo to hi keeps as many days as there are Monday .. Friday dates among its days. */
  lemma {:induction false} WeekdaysCount(lo: ValidDate, hi: ValidDate)
    ensures |Weekdays(DaysFrom(lo, hi))| ==
      if Less(hi, lo) then 0 else WorkdayCount(Weekday(lo), Ordinal(hi) - Ordinal(lo) + 1)
    decreases Ordinal(hi) - Ordinal(lo)
  {
    LessIffOrdinal(hi, lo);
    if !Less(hi, lo) {
      NextDayOrdinal(lo);
      var rest := DaysFrom(NextDay(lo), hi);
      assert DaysFrom(lo, hi) == [lo] + rest;
      assert ([lo] + rest)[1..] == rest;
      WeekdaysCount(NextDay(lo), hi);
      LessIffOrdinal(hi, NextDay(lo));
      WeekdayOfNextDay(lo);
    }
  }

  /** Any seven consecutive days hold exactly five Monday .. Friday dates. */
  lemma SevenDaysFiveWorkdays(k: nat)
    requires k < 7
    ensures WorkdayCount(k, 7) == 5
  {
    if k == 0 { assert WorkdayCount(0, 7) == 5; }
    else if k == 1 { assert WorkdayCount(1, 7) == 5; }
    else if k == 2 { assert WorkdayCount(2, 7) == 5; }
    else if k == 3 { assert WorkdayCount(3, 7) == 5; }
    else if k == 4 { assert WorkdayCount(4, 7) == 5; }
    else if k == 5 { assert WorkdayCount(5, 7) == 5; }
    else { assert WorkdayCount(6, 7) == 5; }
  }

  /** The number of dates `write_range` attempts: the Monday .. Friday dates of the span, whichever date comes first. */
  lemma WorkdaysBetweenCount(dFrom: ValidDate, dTo: ValidDate)
    ensures |WorkdaysBetween(dFrom, dTo)| ==
      var s := Span(dFrom, dTo);
      WorkdayCount(Weekday(s.0), Ordinal(s.1) - Ordinal(s.0) + 1)
  {
    var s := Span(dFrom, dTo);
    LessIffOrdinal(s.1, s.0);
    WeekdaysCount(s.0, s.1);
  }

  /** A week, Monday to Sunday or to Friday, gives five dates to book. */
  lemma WeekHasFiveWorkdays(monday: ValidDate, last: ValidDate)
    requires Weekday(monday) == 0
    requires Ordinal(last) == Ordinal(monday) + 4 || Ordinal(last) == Ordinal(monday) + 6
    ensures |WorkdaysBetween(monday, last)| == 5
  {
    LessIffOrdinal(last, monday);
    WorkdaysBetweenCount(monday, last);
    SevenDaysFiveWorkdays(0);
    assert WorkdayCount(0, 5) == 5;
  }

  /** Seven consecutive days, given in either order, give five dates to book. */
  lemma SevenDaysGiveFive(dFrom: ValidDate, dTo: ValidDate)
    requires Ordinal(dTo) == Ordinal(dFrom) + 6 || Ordinal(dFrom) == Ordinal(dTo) + 6
    ensures |WorkdaysBetween(dFrom, dTo)| == 5
  {
    LessIffOrdinal(dTo, dFrom);
    WorkdaysBetweenCount(dFrom, dTo);
    SevenDaysFiveWorkdays(Weekday(Span(dFrom, dTo).0));
  }

  /** No date occurs twice. */
  ghost predicate NoRepeats(ds: seq<ValidDate>) {
    forall i, j :: 0 <= i < j < |ds| ==> ds[i] != ds[j]
  }

  /** The walk never repeats a day: the ordinals strictly increase. */
  lemma DaysFromDistinct(lo: ValidDate, hi: ValidDate)
    ensures NoRepeats(DaysFrom(lo, hi))
  {
    DaysFromShape(lo, hi);
  }

  /** The tail of a list without repeats has none, and misses the head. */
  lemma NoRepeatsTail(ds: seq<ValidDate>)
    requires ds != [] && NoRepeats(ds)
    ensures NoRepeats(ds[1..]) && ds[0] !in ds[1..]
  {
    assert forall k :: 0 <= k < |ds| - 1 ==> ds[1..][k] == ds[k + 1];
  }

  /** A date put in front of a list without repeats that misses it gives a list without repeats. */
  lemma NoRepeatsCons(x: ValidDate, rest: seq<ValidDate>)
    requires NoRepeats(rest) && x !in rest
    ensures NoRepeats([x] + rest)
  {
    assert forall j :: 0 < j <= |rest| ==> ([x] + rest)[j] == rest[j - 1];
  }

  /** Keeping only the workdays keeps a list free of repeats. */
  lemma {:induction false} WeekdaysDistinct(ds: seq<ValidDate>)
    requires NoRepeats(ds)
    ensures NoRepeats(Weekdays(ds))
  {
    if ds != [] {
      NoRepeatsTail(ds);
      WeekdaysDistinct(ds[1..]);
      WeekdaysMembers(ds[1..]);
      if IsWorkday(ds[0]) {
        NoRepeatsCons(ds[0], Weekdays(ds[1..]));
      }
    }
  }

  /** `write_range` attempts every date at most once. */
  lemma WorkdaysBetweenDistinct(dFrom: ValidDate, dTo: ValidDate)
    ensures NoRepeats(WorkdaysBetween(dFrom, dTo))
  {
    var s := Span(dFrom, dTo);
    DaysFromDistinct(s.0, s.1);
    WeekdaysDistinct(DaysFrom(s.0, s.1));
  }
}
