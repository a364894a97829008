/**
 * Time values and calendar arithmetic as a JavaScript `Date` performs them.
 *
 * A time value is a whole number of milliseconds since 1970-01-01 00:00.
 * Local time is taken to coincide with UTC (no timezone offset), so a `Date`
 * is fully described by its time value. Months are numbered 0..11 and week
 * days 0 (Sunday) .. 6 (Saturday), as `getMonth` and `getDay` return them.
 */
module Calendar {

  const MsPerDay: int := 86400000

  /** The day number of a time value (days since 1970-01-01, rounded down). */
  function Day(t: int): int { t / MsPerDay }

  /** Milliseconds elapsed since the local midnight that starts `t`'s day. */
  function TimeWithinDay(t: int): (r: int)
    ensures 0 <= r < MsPerDay
  { t % MsPerDay }

  /** The time value at `time` milliseconds into day number `day`. */
  function MakeDate(day: int, time: int): int { day * MsPerDay + time }

  lemma MakeDateParts(day: int, time: int)
    requires 0 <= time < MsPerDay
    ensures Day(MakeDate(day, time)) == day
    ensures TimeWithinDay(MakeDate(day, time)) == time
  {
  }

  /** The calendar fields of a time value are those of its day. */
  lemma TimeFields(day: int, time: int)
    requires 0 <= time < MsPerDay
    ensures YearFromTime(MakeDate(day, time)) == YearFromDay(day)
    ensures MonthFromTime(MakeDate(day, time)) == MonthFromDay(day)
    ensures DateFromTime(MakeDate(day, time)) == DateFromDay(day)
  {
    MakeDateParts(day, time);
  }

  lemma SplitTime(t: int)
    ensures MakeDate(Day(t), TimeWithinDay(t)) == t
  {
  }

  /** The milliseconds of an hour/minute/second/millisecond clock reading. */
  function MakeTime(hour: int, min: int, sec: int, ms: int): int
  {
    hour * 3600000 + min * 60000 + sec * 1000 + ms
  }

  /** 0 for Sunday through 6 for Saturday; 1970-01-01 was a Thursday. */
  function WeekDay(t: int): (r: int)
    ensures 0 <= r < 7
  { (Day(t) + 4) % 7 }

  predicate IsLeapYear(y: int)
  {
    y % 4 == 0 && (y % 100 != 0 || y % 400 == 0)
  }

  function DaysInYear(y: int): int
  {
    if IsLeapYear(y) then 366 else 365
  }

  /** Day number of January 1st of year `y`. */
  function DayFromYear(y: int): int
  {
    365 * (y - 1970) + (y - 1969) / 4 - (y - 1901) / 100 + (y - 1601) / 400
  }

  lemma {:induction false} FloorStep4(a: int)
    ensures (a + 1) / 4 - a / 4 == if (a + 1) % 4 == 0 then 1 else 0
  {
  }

  lemma {:induction false} FloorStep100(a: int)
    ensures (a + 1) / 100 - a / 100 == if (a + 1) % 100 == 0 then 1 else 0
  {
  }

  lemma {:induction false} FloorStep400(a: int)
    ensures (a + 1) / 400 - a / 400 == if (a + 1) % 400 == 0 then 1 else 0
  {
  }

  /** Leap days counted by the four-year rule between `y` and `y + 1`. */
  lemma {:induction false} FourYearStep(y: int)
    ensures (y - 1968) / 4 - (y - 1969) / 4 == if y % 4 == 0 then 1 else 0
  {
    FloorStep4(y - 1969);
    assert (y - 1968) % 4 == y % 4;
  }

  lemma {:induction false} CenturyStep(y: int)
    ensures (y - 1900) / 100 - (y - 1901) / 100 == if y % 100 == 0 then 1 else 0
  {
    FloorStep100(y - 1901);
    assert (y - 1900) % 100 == y % 100;
  }

  lemma {:induction false} FourCenturyStep(y: int)
    ensures (y - 1600) / 400 - (y - 1601) / 400 == if y % 400 == 0 then 1 else 0
  {
    FloorStep400(y - 1601);
    assert (y - 1600) % 400 == y % 400;
  }

  /** Multiples of 400 are multiples of 100, and those are multiples of 4. */
  lemma DivisibilityChain(y: int)
    ensures y % 400 == 0 ==> y % 100 == 0
    ensures y % 100 == 0 ==> y % 4 == 0
  {
    if y % 400 == 0 {
      FourHundredIsCentury(y);
    }
    if y % 100 == 0 {
      CenturyIsFourYear(y);
    }
  }

  lemma FourHundredIsCentury(y: int)
    requires y % 400 == 0
    ensures y % 100 == 0
  {
  }

  lemma CenturyIsFourYear(y: int)
    requires y % 100 == 0
    ensures y % 4 == 0
  {
  }

  /** The three leap-day counts that separate New Year of `y` from New Year of `y + 1`. */
  lemma {:induction false} DayFromYearDiff(y: int)
    ensures DayFromYear(y + 1) - DayFromYear(y)
            == 365 + ((y - 1968) / 4 - (y - 1969) / 4)
                   - ((y - 1900) / 100 - (y - 1901) / 100)
                   + ((y - 1600) / 400 - (y - 1601) / 400)
  {
    assert y + 1 - 1969 == y - 1968;
    assert y + 1 - 1901 == y - 1900;
    assert y + 1 - 1601 == y - 1600;
  }

  /** Consecutive New Year days lie exactly one year length apart. */
  lemma {:induction false} DayFromYearStep(y: int)
    ensures DayFromYear(y + 1) == DayFromYear(y) + DaysInYear(y)
  {
    var four := (y - 1968) / 4 - (y - 1969) / 4;
    var hundred := (y - 1900) / 100 - (y - 1901) / 100;
    var fourHundred := (y - 1600) / 400 - (y - 1601) / 400;
    FourYearStep(y);
    CenturyStep(y);
    FourCenturyStep(y);
    DivisibilityChain(y);
    DayFromYearDiff(y);
    assert DaysInYear(y) == 365 + four - hundred + fourHundred;
  }

  /** New Year days strictly increase with the year. */
  lemma {:induction false} DayFromYearMonotone(a: int, b: int)
    requires a < b
    ensures DayFromYear(a) + 365 <= DayFromYear(b)
    decreases b - a
  {
    DayFromYearStep(a);
    if a + 1 < b {
      DayFromYearMonotone(a + 1, b);
    }
  }

  /** Days before month `m` in a year of the given leapness. */
  function DaysBeforeMonth(m: int, leap: bool): int
    requires 0 <= m < 12
  {
    var common :=
      if m == 0 then 0 else if m == 1 then 31 else if m == 2 then 59 else if m == 3 then 90
      else if m == 4 then 120 else if m == 5 then 151 else if m == 6 then 181
      else if m == 7 then 212 else if m == 8 then 243 else if m == 9 then 273
      else if m == 10 then 304 else 334;
    common + (if leap && m >= 2 then 1 else 0)
  }

  function DaysInMonth(m: int, leap: bool): (r: int)
    requires 0 <= m < 12
    ensures 28 <= r <= 31
  {
    if m == 1 then (if leap then 29 else 28)
    else if m == 3 || m == 5 || m == 8 || m == 10 then 30
    else 31
  }

  /** The months tile the year without gaps or overlaps. */
  lemma MonthsTileYear(m: int, leap: bool)
    requires 0 <= m < 12
    ensures m < 11 ==> DaysBeforeMonth(m + 1, leap) == DaysBeforeMonth(m, leap) + DaysInMonth(m, leap)
    ensures m == 11 ==> DaysBeforeMonth(m, leap) + DaysInMonth(m, leap) == (if leap then 366 else 365)
  {
  }

  /**
   * ECMAScript's MakeDay: the day number of `date` in month `month` of
   * `year`, where `month` may lie outside 0..11 (it carries into the year)
   * and `date` may lie outside the month (it rolls over into neighbouring
   * months), exactly as `setDate`/`setMonth`/`setFullYear` let it.
   */
  function MakeDay(year: int, month: int, date: int): int
  {
    var ym := year + month / 12;
    var mn := month % 12;
    DayFromYear(ym) + DaysBeforeMonth(mn, IsLeapYear(ym)) + date - 1
  }

  /** MakeDay is linear in the date: moving the date moves the day by as much. */
  lemma MakeDayShiftDate(year: int, month: int, a: int, b: int)
    ensures MakeDay(year, month, b) == MakeDay(year, month, a) + (b - a)
  {
  }

  /** Searches upward from year `y` for the year that contains day `d`. */
  function YearUp(d: int, y: int): (r: int)
    requires DayFromYear(y) <= d
    ensures DayFromYear(r) <= d < DayFromYear(r + 1)
    decreases d - DayFromYear(y)
  {
    DayFromYearStep(y);
    if d < DayFromYear(y + 1) then y else YearUp(d, y + 1)
  }

  /** Searches downward from year `y` for the year that contains day `d`. */
  function YearDown(d: int, y: int): (r: int)
    requires d < DayFromYear(y + 1)
    ensures DayFromYear(r) <= d < DayFromYear(r + 1)
    decreases DayFromYear(y + 1) - d
  {
    DayFromYearStep(y);
    if DayFromYear(y) <= d then y else YearDown(d, y - 1)
  }

  /** The calendar year that day number `d` falls in. */
  function YearFromDay(d: int): (r: int)
    ensures DayFromYear(r) <= d < DayFromYear(r + 1)
  {
    if d >= 0 then YearUp(d, 1970) else YearDown(d, 1969)
  }

  /** A day lies in exactly one year. */
  lemma {:induction false} YearFromDayUnique(d: int, y: int)
    requires DayFromYear(y) <= d < DayFromYear(y + 1)
    ensures YearFromDay(d) == y
  {
    var r := YearFromDay(d);
    if r < y {
      DayFromYearMonotone(r, y);
      if r + 1 < y { DayFromYearMonotone(r + 1, y); }
    } else if y < r {
      DayFromYearMonotone(y, r);
      if y + 1 < r { DayFromYearMonotone(y + 1, r); }
    }
  }

  /** The last month among 0..m whose first day is at most `w` days into the year. */
  function MonthSearch(w: int, leap: bool, m: int): (r: int)
    requires 0 <= m < 12 && 0 <= w
    ensures 0 <= r <= m
    ensures DaysBeforeMonth(r, leap) <= w
    ensures r < m ==> w < DaysBeforeMonth(r + 1, leap)
  {
    if DaysBeforeMonth(m, leap) <= w then m else MonthSearch(w, leap, m - 1)
  }

  /** Day `w` (0-based) of a year falls in the month this returns. */
  function MonthOfDayInYear(w: int, leap: bool): (r: int)
    requires 0 <= w < (if leap then 366 else 365)
    ensures 0 <= r < 12
    ensures DaysBeforeMonth(r, leap) <= w < DaysBeforeMonth(r, leap) + DaysInMonth(r, leap)
  {
    var r := MonthSearch(w, leap, 11);
    MonthsTileYear(r, leap);
    r
  }

  /** A day of the year lies in exactly one month. */
  lemma {:induction false} MonthOfDayInYearUnique(w: int, leap: bool, m: int)
    requires 0 <= m < 12
    requires DaysBeforeMonth(m, leap) <= w < DaysBeforeMonth(m, leap) + DaysInMonth(m, leap)
    ensures 0 <= w < (if leap then 366 else 365)
    ensures MonthOfDayInYear(w, leap) == m
  {
    MonthsTileYear(m, leap);
    var r := MonthOfDayInYear(w, leap);
    // Months before the later of r and m end no later than it starts.
    forall k | 0 <= k < 11
      ensures DaysBeforeMonth(k, leap) < DaysBeforeMonth(k + 1, leap)
    {
      MonthsTileYear(k, leap);
    }
  }

  function MonthFromDay(d: int): (r: int)
    ensures 0 <= r < 12
  {
    DayFromYearStep(YearFromDay(d));
    MonthOfDayInYear(d - DayFromYear(YearFromDay(d)), IsLeapYear(YearFromDay(d)))
  }

  function DateFromDay(d: int): (r: int)
    ensures 1 <= r <= DaysInMonth(MonthFromDay(d), IsLeapYear(YearFromDay(d)))
  {
    var y := YearFromDay(d);
    d - DayFromYear(y) - DaysBeforeMonth(MonthFromDay(d), IsLeapYear(y)) + 1
  }

  /** `getFullYear`, `getMonth`, `getDate` of a time value. */
  function YearFromTime(t: int): int { YearFromDay(Day(t)) }
  function MonthFromTime(t: int): (r: int) ensures 0 <= r < 12 { MonthFromDay(Day(t)) }
  function DateFromTime(t: int): int { DateFromDay(Day(t)) }

  /** Reading a day's calendar fields and building the day from them gives it back. */
  lemma {:induction false} CalendarFieldsRoundTrip(d: int)
    ensures MakeDay(YearFromDay(d), MonthFromDay(d), DateFromDay(d)) == d
  {
    var m := MonthFromDay(d);
    assert m / 12 == 0 && m % 12 == m;
  }

  /** The day of a time value, rebuilt from its calendar fields. */
  lemma TimeFieldsRoundTrip(t: int)
    ensures MakeDay(YearFromTime(t), MonthFromTime(t), DateFromTime(t)) == Day(t)
  {
    CalendarFieldsRoundTrip(Day(t));
  }

  /** Building a day from valid calendar fields and reading them back gives the fields. */
  lemma {:induction false} MakeDayFieldsRoundTrip(y: int, m: int, date: int)
    requires 0 <= m < 12
    requires 1 <= date <= DaysInMonth(m, IsLeapYear(y))
    ensures YearFromDay(MakeDay(y, m, date)) == y
    ensures MonthFromDay(MakeDay(y, m, date)) == m
    ensures DateFromDay(MakeDay(y, m, date)) == date
  {
    MakeDayYear(y, m, date);
    MakeDayMonth(y, m, date);
    MakeDayDate(y, m, date);
  }

  lemma {:induction false} MakeDayMonth(y: int, m: int, date: int)
    requires 0 <= m < 12
    requires 1 <= date <= DaysInMonth(m, IsLeapYear(y))
    ensures MonthFromDay(MakeDay(y, m, date)) == m
  {
    var d := MakeDay(y, m, date);
    assert YearFromDay(d) == y && MonthOfDayInYear(d - DayFromYear(y), IsLeapYear(y)) == m
        && 0 <= d - DayFromYear(y) < (if IsLeapYear(y) then 366 else 365) by {
      MakeDayYear(y, m, date);
    }
    MonthWithinYear(d, y);
  }

  lemma {:induction false} MakeDayDate(y: int, m: int, date: int)
    requires 0 <= m < 12
    requires 1 <= date <= DaysInMonth(m, IsLeapYear(y))
    ensures DateFromDay(MakeDay(y, m, date)) == date
  {
    var d := MakeDay(y, m, date);
    assert YearFromDay(d) == y && d - DayFromYear(y) == DaysBeforeMonth(m, IsLeapYear(y)) + date - 1
        && 0 <= d - DayFromYear(y) < (if IsLeapYear(y) then 366 else 365) by {
      MakeDayYear(y, m, date);
    }
    assert MonthFromDay(d) == m by {
      MakeDayMonth(y, m, date);
    }
    DateWithinYear(d, y);
  }

  /** A day built from valid fields lies in their year, its offset the days before the month plus the date. */
  lemma {:induction false} MakeDayYear(y: int, m: int, date: int)
    requires 0 <= m < 12
    requires 1 <= date <= DaysInMonth(m, IsLeapYear(y))
    ensures YearFromDay(MakeDay(y, m, date)) == y
    ensures MakeDay(y, m, date) - DayFromYear(y) == DaysBeforeMonth(m, IsLeapYear(y)) + date - 1
    ensures 0 <= MakeDay(y, m, date) - DayFromYear(y) < (if IsLeapYear(y) then 366 else 365)
    ensures MonthOfDayInYear(MakeDay(y, m, date) - DayFromYear(y), IsLeapYear(y)) == m
  {
    var d := MakeDay(y, m, date);
    MakeDayInYear(y, m, date);
    MonthOfDayInYearUnique(d - DayFromYear(y), IsLeapYear(y), m);
    DayFromYearStep(y);
    YearFromDayUnique(d, y);
  }

  /** The month of a day, read relative to the first day of its year. */
  lemma MonthWithinYear(d: int, y: int)
    requires YearFromDay(d) == y
    requires 0 <= d - DayFromYear(y) < (if IsLeapYear(y) then 366 else 365)
    ensures MonthFromDay(d) == MonthOfDayInYear(d - DayFromYear(y), IsLeapYear(y))
  {
  }

  /** The date of a day, read relative to the first day of its year. */
  lemma DateWithinYear(d: int, y: int)
    requires YearFromDay(d) == y
    ensures DateFromDay(d) == d - DayFromYear(y) - DaysBeforeMonth(MonthFromDay(d), IsLeapYear(y)) + 1
  {
  }

  /** A day built from a month inside the year: the year's first day plus the days before it. */
  lemma MakeDayInYear(y: int, m: int, date: int)
    requires 0 <= m < 12
    ensures MakeDay(y, m, date) == DayFromYear(y) + DaysBeforeMonth(m, IsLeapYear(y)) + date - 1
  {
    assert m / 12 == 0 && m % 12 == m;
  }

  /** One month later (same date number) is a strictly later day. */
  lemma {:induction false} MakeDayNextMonth(y: int, m: int, date: int)
    ensures MakeDay(y, m, date) + 28 <= MakeDay(y, m + 1, date)
  {
    var mn := m % 12;
    var ym := y + m / 12;
    MonthsTileYear(mn, IsLeapYear(ym));
    if mn == 11 {
      assert (m + 1) / 12 == m / 12 + 1 && (m + 1) % 12 == 0;
      DayFromYearStep(ym);
    } else {
      assert (m + 1) / 12 == m / 12 && (m + 1) % 12 == mn + 1;
    }
  }

  /** Moving the year back by one moves the day back by one year's length. */
  lemma {:induction false} MakeDayPreviousYear(y: int, m: int, date: int)
    requires 0 <= m < 12
    ensures var gap := MakeDay(y, m, date) - MakeDay(y - 1, m, date); gap == 365 || gap == 366
  {
    MakeDayInYear(y, m, date);
    MakeDayInYear(y - 1, m, date);
    DayFromYearStep(y - 1);
    NoConsecutiveLeapYears(y);
  }

  lemma NoConsecutiveLeapYears(y: int)
    ensures !(IsLeapYear(y) && IsLeapYear(y - 1))
  {
    if y % 4 == 0 {
      assert (y - 1) % 4 == 3;
    }
  }

  /** A JavaScript `Date` object, mutated in place by its setters. */
  class JsDate {
    var time: int

    /** `new Date(other)`: a copy holding the same instant. */
    constructor FromTime(t: int)
      ensures time == t
    {
      time := t;
    }

    /**
     * `new Date(year, month, date)`: that day at local midnight. The
     * constructor's mapping of a year 0 to 99 to 1900 + year (MakeFullYear)
     * is not modelled; the year is taken as given.
     */
    constructor FromFields(year: int, month: int, date: int)
      ensures time == MakeDate(MakeDay(year, month, date), 0)
    {
      time := MakeDate(MakeDay(year, month, date), 0);
    }

    function GetFullYear(): int reads this { YearFromTime(time) }
    function GetMonth(): int reads this { MonthFromTime(time) }
    function GetDate(): int reads this { DateFromTime(time) }
    function GetDay(): int reads this { WeekDay(time) }

    /** `setDate(date)`: keeps year, month and time of day; the date may roll over. */
    method SetDate(date: int)
      modifies this
      ensures time == MakeDate(MakeDay(YearFromTime(old(time)), MonthFromTime(old(time)), date),
                               TimeWithinDay(old(time)))
    {
      time := MakeDate(MakeDay(YearFromTime(time), MonthFromTime(time), date), TimeWithinDay(time));
    }

    /** `setHours(h, m, s, ms)`: keeps the day, replaces the time of day. */
    method SetHours(hour: int, min: int, sec: int, ms: int)
      modifies this
      ensures time == MakeDate(Day(old(time)), MakeTime(hour, min, sec, ms))
    {
      time := MakeDate(Day(time), MakeTime(hour, min, sec, ms));
    }

    /** `setMonth(month)`: keeps year, date and time of day; the month carries into the year. */
    method SetMonth(month: int)
      modifies this
      ensures time == MakeDate(MakeDay(YearFromTime(old(time)), month, DateFromTime(old(time))),
                               TimeWithinDay(old(time)))
    {
      time := MakeDate(MakeDay(YearFromTime(time), month, DateFromTime(time)), TimeWithinDay(time));
    }

    /** `setFullYear(year)`: keeps month, date and time of day. */
    method SetFullYear(year: int)
      modifies this
      ensures time == MakeDate(MakeDay(year, MonthFromTime(old(time)), DateFromTime(old(time))),
                               TimeWithinDay(old(time)))
    {
      time := MakeDate(MakeDay(year, MonthFromTime(time), DateFromTime(time)), TimeWithinDay(time));
    }
  }
}
