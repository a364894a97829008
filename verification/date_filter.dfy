/**
 * The date-range buttons: each range token resolves, relative to the
 * current instant, to a start bound (or none) and an end bound of "now".
 */
module DateFilter {
  import opened Wrappers
  import opened Calendar

  /**
   * Start of "This Week": local midnight of the Monday of the week `now`
   * falls in, a Sunday counting as the last day of its week.
   */
  function WeekStart(now: int): (r: int)
    ensures TimeWithinDay(r) == 0
    ensures WeekDay(r) == 1
    ensures 0 <= Day(now) - Day(r) <= 6
    ensures Day(now) - Day(r) == 6 <==> WeekDay(now) == 0
    ensures r <= now
  {
    var monday := MondayOf(now);
    MakeDateParts(monday, 0);
    SplitTime(now);
    MakeDate(monday, 0)
  }

  /** Day number of the Monday of `now`'s week (Sunday ends a week). */
  function MondayOf(now: int): (r: int)
    ensures 0 <= Day(now) - r <= 6
    ensures Day(now) - r == 6 <==> WeekDay(now) == 0
    ensures (r + 4) % 7 == 1
  {
    var wd := WeekDay(now);
    Day(now) - wd + (if wd == 0 then -6 else 1)
  }

  /** Start of "This Month": midnight on day 1 of `now`'s year and month. */
  function MonthStart(now: int): (r: int)
    ensures YearFromTime(r) == YearFromTime(now)
    ensures MonthFromTime(r) == MonthFromTime(now)
    ensures DateFromTime(r) == 1
    ensures TimeWithinDay(r) == 0
    ensures r <= now
  {
    var y, m := YearFromTime(now), MonthFromTime(now);
    var first := MakeDay(y, m, 1);
    MakeDayFieldsRoundTrip(y, m, 1);
    MakeDateParts(first, 0);
    CalendarFieldsRoundTrip(Day(now));
    SplitTime(now);
    MakeDate(first, 0)
  }

  /** The year and month six months before month `m` of year `y`, borrowing a year if needed. */
  function SixMonthsEarlier(y: int, m: int): (int, int)
  {
    if m >= 6 then (y, m - 6) else (y - 1, m + 6)
  }

  /**
   * Start of "Last 6 Months": the month index moved back by six (borrowing
   * a year), date and time of day kept. A date the earlier month does not
   * have rolls over into the month after it, as JavaScript's `setMonth` does.
   */
  function SixMonthsBack(now: int): int
  {
    MakeDate(MakeDay(YearFromTime(now), MonthFromTime(now) - 6, DateFromTime(now)), TimeWithinDay(now))
  }

  /** The start of "Last 6 Months" keeps the time of day and lies before `now`. */
  lemma {:induction false} SixMonthsBackEarlier(now: int)
    ensures TimeWithinDay(SixMonthsBack(now)) == TimeWithinDay(now)
    ensures SixMonthsBack(now) < now
  {
    var y, m, d := YearFromTime(now), MonthFromTime(now), DateFromTime(now);
    var r := SixMonthsBack(now);
    var back := MakeDay(y, m - 6, d);
    assert r == MakeDate(back, TimeWithinDay(now));
    MakeDateParts(back, TimeWithinDay(now));
    assert back < Day(now) by {
      SixMonthsIsEarlier(y, m, d);
      CalendarFieldsRoundTrip(Day(now));
    }
    SplitTime(now);
    SplitTime(r);
  }

  /**
   * Time `r` lies six months before date `d` of month `m` of year `y`: it has
   * the target year, month and date, or, when the target month is too short,
   * the date rolled over into the following month of the same year.
   */
  predicate SixMonthsFieldsOf(y: int, m: int, d: int, r: int)
    requires 0 <= m < 12
  {
    var (ty, tm) := SixMonthsEarlier(y, m);
    var dim := DaysInMonth(tm, IsLeapYear(ty));
    && (d <= dim ==> YearFromTime(r) == ty && MonthFromTime(r) == tm && DateFromTime(r) == d)
    && (d > dim ==> YearFromTime(r) == ty && tm < 11 && MonthFromTime(r) == tm + 1 && DateFromTime(r) == d - dim)
  }

  /**
   * The start of "Last 6 Months" has the target year, month and date, or,
   * when the target month is too short, the rolled-over ones.
   */
  lemma {:induction false} SixMonthsBackFields(now: int)
    ensures SixMonthsFieldsOf(YearFromTime(now), MonthFromTime(now), DateFromTime(now), SixMonthsBack(now))
  {
    assert 0 <= MonthFromTime(now) < 12;
    assert 1 <= DateFromTime(now) <= 31;
    assert 0 <= TimeWithinDay(now) < MsPerDay;
    assert SixMonthsBack(now) == MakeDate(MakeDay(YearFromTime(now), MonthFromTime(now) - 6, DateFromTime(now)), TimeWithinDay(now));
    SixMonthsFieldsAt(YearFromTime(now), MonthFromTime(now), DateFromTime(now), TimeWithinDay(now), SixMonthsBack(now));
  }

  /** SixMonthsBackFields for the time `r` built from time of day `tw` on date `d` of month `m` - 6 of year `y`. */
  lemma {:induction false} SixMonthsFieldsAt(y: int, m: int, d: int, tw: int, r: int)
    requires 0 <= m < 12
    requires 1 <= d <= 31
    requires 0 <= tw < MsPerDay
    requires r == MakeDate(MakeDay(y, m - 6, d), tw)
    ensures SixMonthsFieldsOf(y, m, d, r)
  {
    TimeFields(MakeDay(y, m - 6, d), tw);
    SixMonthsBackFacts(y, m, d);
  }

  lemma {:induction false} SixMonthsBackFacts(y: int, m: int, d: int)
    requires 0 <= m < 12
    requires 1 <= d <= 31
    ensures var (ty, tm) := SixMonthsEarlier(y, m);
            var dim := DaysInMonth(tm, IsLeapYear(ty));
            && (d <= dim ==> YearFromDay(MakeDay(y, m - 6, d)) == ty && MonthFromDay(MakeDay(y, m - 6, d)) == tm
                             && DateFromDay(MakeDay(y, m - 6, d)) == d)
            && (d > dim ==> YearFromDay(MakeDay(y, m - 6, d)) == ty && tm < 11
                            && MonthFromDay(MakeDay(y, m - 6, d)) == tm + 1 && DateFromDay(MakeDay(y, m - 6, d)) == d - dim)
  {
    var (ty, tm) := SixMonthsEarlier(y, m);
    SixMonthsBorrow(y, m, d);
    TargetMonthFields(ty, tm, d);
  }

  /** Six steps of at least 28 days each. */
  lemma {:induction false} SixMonthsIsEarlier(y: int, m: int, d: int)
    ensures MakeDay(y, m - 6, d) + 168 <= MakeDay(y, m, d)
  {
    MakeDayNextMonth(y, m - 6, d);
    MakeDayNextMonth(y, m - 5, d);
    MakeDayNextMonth(y, m - 4, d);
    MakeDayNextMonth(y, m - 3, d);
    MakeDayNextMonth(y, m - 2, d);
    MakeDayNextMonth(y, m - 1, d);
  }

  /** A month index below zero borrows a year, as MakeDay normalises it. */
  lemma {:induction false} SixMonthsBorrow(y: int, m: int, d: int)
    requires 0 <= m < 12
    ensures var (ty, tm) := SixMonthsEarlier(y, m); MakeDay(y, m - 6, d) == MakeDay(ty, tm, d)
  {
    var (ty, tm) := SixMonthsEarlier(y, m);
    if m >= 6 {
      assert (m - 6) / 12 == 0 && (m - 6) % 12 == m - 6;
    } else {
      assert (m - 6) / 12 == -1 && (m - 6) % 12 == m + 6;
    }
    assert tm / 12 == 0 && tm % 12 == tm;
  }

  /** The calendar fields of `date` in month `tm`, rolling over into the next month when too large. */
  lemma {:induction false} TargetMonthFields(ty: int, tm: int, d: int)
    requires 0 <= tm < 12
    requires 1 <= d <= 31
    ensures var dim := DaysInMonth(tm, IsLeapYear(ty));
            && (d <= dim ==> YearFromDay(MakeDay(ty, tm, d)) == ty && MonthFromDay(MakeDay(ty, tm, d)) == tm
                             && DateFromDay(MakeDay(ty, tm, d)) == d)
            && (d > dim ==> YearFromDay(MakeDay(ty, tm, d)) == ty && tm < 11
                            && MonthFromDay(MakeDay(ty, tm, d)) == tm + 1 && DateFromDay(MakeDay(ty, tm, d)) == d - dim)
  {
    var leap := IsLeapYear(ty);
    var dim := DaysInMonth(tm, leap);
    if d <= dim {
      MakeDayFieldsRoundTrip(ty, tm, d);
    } else {
      RolloverFields(ty, tm, d);
    }
  }

  /** The fields of a date past the end of its month: the next month, that many days in. */
  lemma RolloverFields(ty: int, tm: int, d: int)
    requires 0 <= tm < 12
    requires DaysInMonth(tm, IsLeapYear(ty)) < d <= 31
    ensures tm < 11
    ensures var day := MakeDay(ty, tm, d);
            && YearFromDay(day) == ty
            && MonthFromDay(day) == tm + 1
            && DateFromDay(day) == d - DaysInMonth(tm, IsLeapYear(ty))
  {
    var date := d - DaysInMonth(tm, IsLeapYear(ty));
    DateRollsIntoNextMonth(ty, tm, d);
    MakeDayFieldsRoundTrip(ty, tm + 1, date);
  }

  /** A date past the end of its month is that many days into the next month, in the same year. */
  lemma DateRollsIntoNextMonth(ty: int, tm: int, d: int)
    requires 0 <= tm < 12
    requires DaysInMonth(tm, IsLeapYear(ty)) < d <= 31
    ensures tm < 11
    ensures MakeDay(ty, tm, d) == MakeDay(ty, tm + 1, d - DaysInMonth(tm, IsLeapYear(ty)))
  {
    MonthsTileYear(tm, IsLeapYear(ty));
    assert (tm + 1) / 12 == 0 && (tm + 1) % 12 == tm + 1;
    assert tm / 12 == 0 && tm % 12 == tm;
  }

  /**
   * Start of "Last 1 Year": the same month, date and time of day one year
   * earlier, which is 365 or 366 days back. Only February 29 has no
   * counterpart; it rolls over to March 1, as JavaScript's `setFullYear` does.
   */
  function YearBack(now: int): int
  {
    MakeDate(MakeDay(YearFromTime(now) - 1, MonthFromTime(now), DateFromTime(now)), TimeWithinDay(now))
  }

  /**
   * The start of "Last 1 Year" keeps the time of day, lies 365 or 366 days
   * back, and has the same month and date one year earlier when that date exists.
   */
  lemma {:induction false} YearBackFields(now: int)
    ensures var r := YearBack(now);
            && TimeWithinDay(r) == TimeWithinDay(now)
            && (Day(now) - Day(r) == 365 || Day(now) - Day(r) == 366)
            && r < now
    ensures var r := YearBack(now);
            var y, m, d := YearFromTime(now), MonthFromTime(now), DateFromTime(now);
            d <= DaysInMonth(m, IsLeapYear(y - 1)) ==>
              YearFromTime(r) == y - 1 && MonthFromTime(r) == m && DateFromTime(r) == d
  {
    YearBackParts(now);
    YearBackGap(now);
    if DateFromTime(now) <= DaysInMonth(MonthFromTime(now), IsLeapYear(YearFromTime(now) - 1)) {
      YearBackSameFields(now);
    }
    SplitTime(now);
    SplitTime(YearBack(now));
  }

  /** The day and the time of day of the start of "Last 1 Year". */
  lemma YearBackParts(now: int)
    ensures Day(YearBack(now)) == MakeDay(YearFromTime(now) - 1, MonthFromTime(now), DateFromTime(now))
    ensures TimeWithinDay(YearBack(now)) == TimeWithinDay(now)
  {
    var back := MakeDay(YearFromTime(now) - 1, MonthFromTime(now), DateFromTime(now));
    var tw := TimeWithinDay(now);
    assert YearBack(now) == MakeDate(back, tw);
    MakeDateParts(back, tw);
  }

  /** The start of "Last 1 Year" is 365 or 366 days before `now`'s day. */
  lemma {:induction false} YearBackGap(now: int)
    ensures Day(now) - Day(YearBack(now)) == 365 || Day(now) - Day(YearBack(now)) == 366
  {
    TimeFieldsRoundTrip(now);
    YearBackParts(now);
    MakeDayPreviousYear(YearFromTime(now), MonthFromTime(now), DateFromTime(now));
  }

  /** The start of "Last 1 Year" has `now`'s month and date in the previous year, when that date exists. */
  lemma {:induction false} YearBackSameFields(now: int)
    requires DateFromTime(now) <= DaysInMonth(MonthFromTime(now), IsLeapYear(YearFromTime(now) - 1))
    ensures YearFromTime(YearBack(now)) == YearFromTime(now) - 1
    ensures MonthFromTime(YearBack(now)) == MonthFromTime(now)
    ensures DateFromTime(YearBack(now)) == DateFromTime(now)
  {
    FieldsOfMakeDate(YearFromTime(now) - 1, MonthFromTime(now), DateFromTime(now), TimeWithinDay(now));
  }

  /** The calendar fields of a time built from valid fields are those fields. */
  lemma FieldsOfMakeDate(y: int, m: int, d: int, tw: int)
    requires 0 <= m < 12
    requires 1 <= d <= DaysInMonth(m, IsLeapYear(y))
    requires 0 <= tw < MsPerDay
    ensures YearFromTime(MakeDate(MakeDay(y, m, d), tw)) == y
    ensures MonthFromTime(MakeDate(MakeDay(y, m, d), tw)) == m
    ensures DateFromTime(MakeDate(MakeDay(y, m, d), tw)) == d
  {
    MakeDateParts(MakeDay(y, m, d), tw);
    MakeDayFieldsRoundTrip(y, m, d);
  }

  /**
   * The start bound a token resolves to: `None` (no lower bound) for `all`
   * and for any token the switch does not know.
   */
  function ResolveStart(filter: string, now: int): (r: Option<int>)
    ensures r.None? <==> filter != "week" && filter != "month" && filter != "6months" && filter != "year"
    ensures r.Some? ==> r.value <= now
  {
    SixMonthsBackEarlier(now);
    YearBackFields(now);
    if filter == "week" then Some(WeekStart(now))
    else if filter == "month" then Some(MonthStart(now))
    else if filter == "6months" then Some(SixMonthsBack(now))
    else if filter == "year" then Some(YearBack(now))
    else None
  }

  /** On a Sunday the week started six days earlier, on the Monday before. */
  lemma SundayWeekStartsSixDaysBack(now: int)
    requires WeekDay(now) == 0
    ensures Day(now) - Day(WeekStart(now)) == 6
    ensures WeekDay(WeekStart(now)) == 1
  {
  }

  /** Moving `now`'s date back to Monday and then to midnight lands on WeekStart. */
  lemma {:induction false} WeekStartBySetters(now: int)
    ensures MakeDate(Day(MakeDate(MakeDay(YearFromTime(now), MonthFromTime(now), MondayDate(now)),
                                  TimeWithinDay(now))),
                     MakeTime(0, 0, 0, 0))
            == WeekStart(now)
  {
    var y, m, d := YearFromTime(now), MonthFromTime(now), DateFromTime(now);
    CalendarFieldsRoundTrip(Day(now));
    MakeDayShiftDate(y, m, d, MondayDate(now));
    var monday := MondayOf(now);
    assert MakeDay(y, m, MondayDate(now)) == monday;
    MakeDateParts(monday, TimeWithinDay(now));
    assert MakeTime(0, 0, 0, 0) == 0;
  }

  /** The argument `handleFilterChange` passes to `setDate` for the week's Monday. */
  function MondayDate(now: int): int
  {
    var wd := WeekDay(now);
    DateFromTime(now) - wd + (if wd == 0 then -6 else 1)
  }

  /** `monday = new Date(now)`, moved to the week's Monday, then to midnight. */
  method MondayOfWeek(now: JsDate) returns (monday: JsDate)
    ensures fresh(monday)
    ensures monday.time == WeekStart(now.time)
  {
    monday := new JsDate.FromTime(now.time);
    var date := now.GetDate() - now.GetDay() + (if now.GetDay() == 0 then -6 else 1);
    assert date == MondayDate(now.time);
    monday.SetDate(date);
    ghost var moved := monday.time;
    assert moved == MakeDate(MakeDay(YearFromTime(now.time), MonthFromTime(now.time), MondayDate(now.time)),
                             TimeWithinDay(now.time));
    monday.SetHours(0, 0, 0, 0);
    assert monday.time == MakeDate(Day(moved), MakeTime(0, 0, 0, 0));
    WeekStartBySetters(now.time);
  }

  /** `new Date(now.getFullYear(), now.getMonth(), 1)`. */
  method FirstOfMonth(now: JsDate) returns (first: JsDate)
    ensures fresh(first)
    ensures first.time == MonthStart(now.time)
  {
    first := new JsDate.FromFields(now.GetFullYear(), now.GetMonth(), 1);
  }

  /** `new Date(now)` with `setMonth(now.getMonth() - 6)`. */
  method SixMonthsAgo(now: JsDate) returns (back: JsDate)
    ensures fresh(back)
    ensures back.time == SixMonthsBack(now.time)
  {
    var t := now.time;
    var month := now.GetMonth();
    back := new JsDate.FromTime(t);
    back.SetMonth(month - 6);
    assert now.time == t;
    SixMonthsBackFromMonth(t, month);
  }

  /** `new Date(now)` with `setFullYear(now.getFullYear() - 1)`. */
  method OneYearAgo(now: JsDate) returns (back: JsDate)
    ensures fresh(back)
    ensures back.time == YearBack(now.time)
  {
    var t := now.time;
    var previous := now.GetFullYear() - 1;
    back := new JsDate.FromTime(t);
    back.SetFullYear(previous);
    assert now.time == t;
    YearBackFromYear(t, previous);
  }

  /** SixMonthsBack written with the month `getMonth` returned. */
  lemma SixMonthsBackFromMonth(t: int, month: int)
    requires month == MonthFromTime(t)
    ensures SixMonthsBack(t) == MakeDate(MakeDay(YearFromTime(t), month - 6, DateFromTime(t)), TimeWithinDay(t))
  {
  }

  /** YearBack written with the year before the one `getFullYear` returned. */
  lemma YearBackFromYear(t: int, previous: int)
    requires previous == YearFromTime(t) - 1
    ensures YearBack(t) == MakeDate(MakeDay(previous, MonthFromTime(t), DateFromTime(t)), TimeWithinDay(t))
  {
  }

  /** The component's state: which button is highlighted. */
  class DateFilterState {
    var activeFilter: string

    constructor ()
      ensures activeFilter == "all"
    {
      activeFilter := "all";
    }

    /**
     * `handleFilterChange(filter)`: records the active token, reads the
     * clock once (`clock` is the instant `new Date()` returns) and reports
     * the start bound and an end bound of that instant.
     */
    method HandleFilterChange(filter: string, clock: int) returns (start: Option<int>, end: int)
      modifies this
      ensures activeFilter == filter
      ensures end == clock
      ensures start == ResolveStart(filter, clock)
    {
      activeFilter := filter;
      var now := new JsDate.FromTime(clock);
      var startDate: JsDate;
      if filter == "week" {
        startDate := MondayOfWeek(now);
        start := Some(startDate.time);
      } else if filter == "month" {
        startDate := FirstOfMonth(now);
        start := Some(startDate.time);
      } else if filter == "6months" {
        startDate := SixMonthsAgo(now);
        start := Some(startDate.time);
      } else if filter == "year" {
        startDate := OneYearAgo(now);
        start := Some(startDate.time);
      } else {
        start := None;
      }
      end := now.time;
    }
  }
}
