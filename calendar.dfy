/**
 * Proleptic Gregorian calendar arithmetic on integer dates, with the
 * semantics of Python's `datetime` module: day ordinals (`toordinal`),
 * one-day steps (`- timedelta(days=1)`), weekdays and the ISO 8601
 * week-numbering calendar (`isocalendar`).
 */
module Calendar {

  /** A calendar date. The time of day never affects a period key, so it is not kept. */
  datatype Date = Date(year: int, month: int, day: int)

  predicate IsLeapYear(y: int) {
    y % 4 == 0 && (y % 100 != 0 || y % 400 == 0)
  }

  function DaysInYear(y: int): int {
    if IsLeapYear(y) then 366 else 365
  }

  function DaysInMonth(y: int, m: int): int {
    if m == 2 then (if IsLeapYear(y) then 29 else 28)
    else if m == 4 || m == 6 || m == 9 || m == 11 then 30
    else 31
  }

  predicate ValidDate(d: Date) {
    1 <= d.month <= 12 && 1 <= d.day <= DaysInMonth(d.year, d.month)
  }

  /** Number of days in the years before `y` (floor division, as Python's `//`). */
  function DaysBeforeYear(y: int): int {
    var p := y - 1;
    p * 365 + p / 4 - p / 100 + p / 400
  }

  /** Number of days in year `y` before the first of month `m`. */
  function DaysBeforeMonth(y: int, m: int): int
    requires 1 <= m <= 12
  {
    var common :=
      if m == 1 then 0 else if m == 2 then 31 else if m == 3 then 59
      else if m == 4 then 90 else if m == 5 then 120 else if m == 6 then 151
      else if m == 7 then 181 else if m == 8 then 212 else if m == 9 then 243
      else if m == 10 then 273 else if m == 11 then 304 else 334;
    common + (if m > 2 && IsLeapYear(y) then 1 else 0)
  }

  /** Day number of `d`, with 0001-01-01 as day 1 (Python's `date.toordinal`). */
  function Ordinal(d: Date): int
    requires 1 <= d.month <= 12
  {
    DaysBeforeYear(d.year) + DaysBeforeMonth(d.year, d.month) + d.day
  }

  /** Ordinal of January 1 of `y`. */
  function NewYear(y: int): int {
    DaysBeforeYear(y) + 1
  }

  lemma YearStep(y: int)
    ensures DaysBeforeYear(y + 1) == DaysBeforeYear(y) + DaysInYear(y)
  {
    var p := y - 1;
    assert (p + 1) / 4 == p / 4 + (if y % 4 == 0 then 1 else 0);
    assert (p + 1) / 100 == p / 100 + (if y % 100 == 0 then 1 else 0);
    assert (p + 1) / 400 == p / 400 + (if y % 400 == 0 then 1 else 0);
    if y % 400 == 0 {
      assert y % 100 == 0 && y % 4 == 0;
    } else if y % 100 == 0 {
      assert y % 4 == 0;
    }
  }

  lemma MonthStep(y: int, m: int)
    requires 1 <= m < 12
    ensures DaysBeforeMonth(y, m + 1) == DaysBeforeMonth(y, m) + DaysInMonth(y, m)
  {
  }

  lemma LastMonthStep(y: int)
    ensures DaysBeforeMonth(y, 12) + DaysInMonth(y, 12) == DaysInYear(y)
  {
  }

  /** A valid date lies within its own year: between January 1 and December 31. */
  lemma WithinYear(d: Date)
    requires ValidDate(d)
    ensures NewYear(d.year) <= Ordinal(d) < NewYear(d.year + 1)
  {
    YearStep(d.year);
  }

  /** Successive New Years are at least 365 days apart, so later years start later. */
  lemma {:induction false} NewYearMonotone(a: int, b: int)
    requires a < b
    ensures NewYear(a) + 365 <= NewYear(b)
    decreases b - a
  {
    YearStep(a);
    if a + 1 < b {
      NewYearMonotone(a + 1, b);
    }
  }

  /** The first of a later month of the same year starts after every day of an earlier month. */
  lemma MonthMonotone(y: int, m1: int, m2: int)
    requires 1 <= m1 < m2 <= 12
    ensures DaysBeforeMonth(y, m1) + DaysInMonth(y, m1) <= DaysBeforeMonth(y, m2)
  {
  }

  /** Python's `date - timedelta(days=1)`: the calendar date one day earlier. */
  function PrevDay(d: Date): (r: Date)
    requires ValidDate(d)
    ensures ValidDate(r) && Ordinal(r) == Ordinal(d) - 1
  {
    if d.day > 1 then Date(d.year, d.month, d.day - 1)
    else if d.month > 1 then
      MonthStep(d.year, d.month - 1);
      Date(d.year, d.month - 1, DaysInMonth(d.year, d.month - 1))
    else
      YearStep(d.year - 1);
      LastMonthStep(d.year - 1);
      Date(d.year - 1, 12, 31)
  }

  /** Python's `date + timedelta(days=1)`: the calendar date one day later. */
  function NextDay(d: Date): (r: Date)
    requires ValidDate(d)
    ensures ValidDate(r) && Ordinal(r) == Ordinal(d) + 1
  {
    if d.day < DaysInMonth(d.year, d.month) then Date(d.year, d.month, d.day + 1)
    else if d.month < 12 then
      MonthStep(d.year, d.month);
      Date(d.year, d.month + 1, 1)
    else
      YearStep(d.year);
      LastMonthStep(d.year);
      Date(d.year + 1, 1, 1)
  }

  /** The date `k` days after (or, for negative `k`, before) `d` (Python's `date.fromordinal(d.toordinal() + k)`). */
  function Shift(d: Date, k: int): (r: Date)
    requires ValidDate(d)
    ensures ValidDate(r) && Ordinal(r) == Ordinal(d) + k
    decreases if k < 0 then -k else k
  {
    if k == 0 then d
    else if k > 0 then Shift(NextDay(d), k - 1)
    else Shift(PrevDay(d), k + 1)
  }

  /** Lexicographic order on (year, month, day), as Python compares date tuples. */
  predicate DateLess(a: Date, b: Date) {
    a.year < b.year
    || (a.year == b.year && a.month < b.month)
    || (a.year == b.year && a.month == b.month && a.day < b.day)
  }

  /** Tuple order on valid dates is day-number order; in particular the ordinal is injective. */
  lemma DateOrderIsOrdinalOrder(a: Date, b: Date)
    requires ValidDate(a) && ValidDate(b)
    ensures DateLess(a, b) <==> Ordinal(a) < Ordinal(b)
    ensures a == b <==> Ordinal(a) == Ordinal(b)
  {
    WithinYear(a);
    WithinYear(b);
    if a.year < b.year {
      if a.year + 1 < b.year { NewYearMonotone(a.year + 1, b.year); }
    } else if b.year < a.year {
      if b.year + 1 < a.year { NewYearMonotone(b.year + 1, a.year); }
    } else if a.month < b.month {
      MonthMonotone(a.year, a.month, b.month);
    } else if b.month < a.month {
      MonthMonotone(a.year, b.month, a.month);
    }
  }

  /** Python's `date.weekday()`: 0 for Monday through 6 for Sunday. */
  function Weekday(n: int): int {
    (n + 6) % 7
  }

  /** The ordinal `n` falls on a Monday. */
  predicate IsMonday(n: int) {
    Weekday(n) == 0
  }

  /** The Monday of the week holding day `first + 3`: ISO week 1 when `first` is January 1. */
  function MondayBefore(first: int): (w: int)
    ensures IsMonday(w) && w <= first + 3 < w + 7
  {
    var firstWeekday := Weekday(first);
    var monday := first - firstWeekday;
    if firstWeekday > 3 then monday + 7 else monday
  }

  /**
   * Ordinal of the Monday that starts ISO week 1 of `y` (Python's `_isoweek1monday`).
   * Week 1 is the week holding the year's first Thursday, so it is the Monday-started
   * week that holds January 4 (section 3.2.2 of ISO 8601:2004).
   */
  function Week1Monday(y: int): (w: int)
    ensures IsMonday(w) && w <= Ordinal(Date(y, 1, 4)) < w + 7
  {
    MondayBefore(NewYear(y))
  }

  /** ISO week 1 starts within three days of January 1. */
  lemma Week1MondayNearNewYear(y: int)
    ensures Week1Monday(y) - 3 <= NewYear(y) <= Week1Monday(y) + 3
  {
    assert Ordinal(Date(y, 1, 4)) == NewYear(y) + 3;
  }

  /** A whole number of weeks after a Monday is a Monday. */
  lemma MondayAfterWeeks(a: int, k: int)
    requires IsMonday(a)
    ensures IsMonday(a + 7 * k)
  {
  }

  /** Within the week that a Monday starts, the weekday counts the days since that Monday. */
  lemma WeekdayInWeek(m: int, n: int)
    requires IsMonday(m) && m <= n < m + 7
    ensures Weekday(n) == n - m
  {
  }

  /** A day that is both a Monday and within the first week after a Monday is that Monday. */
  lemma MondayInWeek(m: int, n: int)
    requires IsMonday(m) && IsMonday(n) && m <= n < m + 7
    ensures n == m
  {
    WeekdayInWeek(m, n);
  }

  /** Two Mondays are a whole number of weeks apart. */
  lemma MondaysWeeksApart(a: int, b: int)
    requires IsMonday(a) && IsMonday(b)
    ensures b - a == 7 * ((b - a) / 7)
  {
  }

  /** Number of ISO weeks in ISO year `y`. */
  function WeeksInIsoYear(y: int): int {
    (Week1Monday(y + 1) - Week1Monday(y)) / 7
  }

  /** An ISO year has 52 or 53 whole weeks. */
  lemma IsoYearLength(y: int)
    ensures Week1Monday(y + 1) - Week1Monday(y) == 7 * WeeksInIsoYear(y)
    ensures 52 <= WeeksInIsoYear(y) <= 53
  {
    YearStep(y);
    Week1MondayNearNewYear(y);
    Week1MondayNearNewYear(y + 1);
    var a, b := Week1Monday(y), Week1Monday(y + 1);
    MondaysWeeksApart(a, b);
    var q := (b - a) / 7;
    assert 359 <= 7 * q <= 372;
  }

  /** Later ISO years start later: week 1 of `b` starts no earlier than the end of ISO year `a`. */
  lemma {:induction false} Week1MondayMonotone(a: int, b: int)
    requires a < b
    ensures Week1Monday(a + 1) <= Week1Monday(b)
    decreases b - a
  {
    if a + 1 < b {
      IsoYearLength(a + 1);
      Week1MondayMonotone(a + 1, b);
    }
  }

  /** Day `n` lies in ISO year `y`. */
  predicate InIsoYear(y: int, n: int) {
    Week1Monday(y) <= n < Week1Monday(y + 1)
  }

  /** Every day belongs to exactly one ISO year. */
  lemma IsoYearUnique(a: int, b: int, n: int)
    requires InIsoYear(a, n) && InIsoYear(b, n)
    ensures a == b
  {
    if a < b {
      Week1MondayMonotone(a, b);
    } else if b < a {
      Week1MondayMonotone(b, a);
    }
  }

  /** An `isocalendar()` result. */
  datatype IsoDate = IsoDate(isoYear: int, week: int, weekday: int)

  /** Week and weekday of day `n` counted from the Monday `w` that starts its ISO year `y`. */
  function IsoDateFrom(y: int, w: int, n: int): (r: IsoDate)
    requires w == Week1Monday(y) && w <= n < Week1Monday(y + 1)
    ensures InIsoYear(r.isoYear, n)
    ensures 1 <= r.week <= WeeksInIsoYear(r.isoYear) && 1 <= r.weekday <= 7
    ensures n == Week1Monday(r.isoYear) + 7 * (r.week - 1) + (r.weekday - 1)
  {
    IsoYearLength(y);
    IsoDate(y, (n - w) / 7 + 1, (n - w) % 7 + 1)
  }

  /**
   * Python's `isocalendar` on day `today` of calendar year `y`: count weeks from ISO week 1
   * of `y`, stepping back to the previous ISO year or on to the next one when needed.
   */
  function IsoCalendarAt(y: int, today: int): (r: IsoDate)
    requires NewYear(y) <= today < NewYear(y + 1)
    ensures InIsoYear(r.isoYear, today)
    ensures 1 <= r.week <= WeeksInIsoYear(r.isoYear) && 1 <= r.weekday <= 7
    ensures today == Week1Monday(r.isoYear) + 7 * (r.week - 1) + (r.weekday - 1)
  {
    var w1 := Week1Monday(y);
    if today < w1 then
      PreviousIsoYear(y, today);
      IsoDateFrom(y - 1, Week1Monday(y - 1), today)
    else if (today - w1) / 7 >= 52 && today >= Week1Monday(y + 1) then
      NextIsoYear(y, today);
      IsoDate(y + 1, 1, (today - w1) % 7 + 1)
    else
      CurrentIsoYear(y, today);
      IsoDateFrom(y, w1, today)
  }

  /** A day of calendar year `y` before its ISO week 1 lies in ISO year `y - 1`. */
  lemma PreviousIsoYear(y: int, today: int)
    requires NewYear(y) <= today < Week1Monday(y)
    ensures Week1Monday(y - 1) <= today
  {
    Week1MondayNearNewYear(y);
    IsoYearLength(y - 1);
  }

  /** A day of calendar year `y` after the last ISO week of `y` is in week 1 of ISO year `y + 1`. */
  lemma NextIsoYear(y: int, today: int)
    requires today < NewYear(y + 1) && Week1Monday(y + 1) <= today
    requires Week1Monday(y) <= today && (today - Week1Monday(y)) / 7 >= 52
    ensures InIsoYear(y + 1, today)
    ensures 1 <= WeeksInIsoYear(y + 1)
    ensures (today - Week1Monday(y)) % 7 == today - Week1Monday(y + 1) < 7
  {
    Week1MondayNearNewYear(y + 1);
    IsoYearLength(y);
    IsoYearLength(y + 1);
    WrapToNextWeek(Week1Monday(y), Week1Monday(y + 1), today);
  }

  /** Counting days from a Monday `a`, a day in the week that starts on the later Monday `b` has the weekday of its distance from `b`. */
  lemma WrapToNextWeek(a: int, b: int, n: int)
    requires b - a == 7 * ((b - a) / 7) && b <= n < b + 7
    ensures (n - a) % 7 == n - b
  {
  }

  /** A day of calendar year `y` from its ISO week 1 on, and not wrapped into the next ISO year, lies in ISO year `y`. */
  lemma CurrentIsoYear(y: int, today: int)
    requires Week1Monday(y) <= today < NewYear(y + 1)
    requires !((today - Week1Monday(y)) / 7 >= 52 && today >= Week1Monday(y + 1))
    ensures today < Week1Monday(y + 1)
  {
    IsoYearLength(y);
  }

  /** A day's ISO year, week and weekday, as Python's `date.isocalendar` computes them. */
  function IsoCalendar(d: Date): (r: IsoDate)
    requires ValidDate(d)
    ensures InIsoYear(r.isoYear, Ordinal(d))
    ensures 1 <= r.week <= WeeksInIsoYear(r.isoYear) && 1 <= r.weekday <= 7
    ensures Ordinal(d) == Week1Monday(r.isoYear) + 7 * (r.week - 1) + (r.weekday - 1)
  {
    WithinYear(d);
    IsoCalendarAt(d.year, Ordinal(d))
  }
}
