/**
 * Period keys and period navigation (analyse.py `period_index`, `previous_period`,
 * and the `next_period` the tests import): a date maps to the day, ISO week or
 * month that holds it, and periods of one kind form a gap-free line on which
 * `PreviousPeriod` and `NextPeriod` step one place back and forth.
 */
module Periods {
  import opened Outcomes
  import opened Calendar

  /** Period-type codes as stored in the `counter` table (db.py). */
  const PERIOD_DAILY: int := 1
  const PERIOD_WEEKLY: int := 2
  const PERIOD_MONTHLY: int := 3

  datatype PeriodType = Daily | Weekly | Monthly

  function CodeOf(t: PeriodType): int {
    match t
    case Daily => PERIOD_DAILY
    case Weekly => PERIOD_WEEKLY
    case Monthly => PERIOD_MONTHLY
  }

  lemma CodeOfInjective(t: PeriodType, u: PeriodType)
    requires CodeOf(t) == CodeOf(u)
    ensures t == u
  {
  }

  /** Decodes a stored period-type code; any other value is "Unknown period type". */
  function PeriodTypeOf(code: int): (r: Result<PeriodType>)
    ensures r.Ok? ==> CodeOf(r.value) == code
    ensures r.Err? ==> r.error == UnknownPeriodType && forall t :: CodeOf(t) != code
  {
    if code == PERIOD_DAILY then Ok(Daily)
    else if code == PERIOD_WEEKLY then Ok(Weekly)
    else if code == PERIOD_MONTHLY then Ok(Monthly)
    else Err(UnknownPeriodType)
  }

  /**
   * A period key: the tuples `(year, month, day)`, `(iso_year, iso_week)` and
   * `(year, month)` of the source, tagged with their kind.
   */
  datatype Key =
    | Day(year: int, month: int, day: int)
    | Week(isoYear: int, week: int)
    | Month(year: int, month: int)

  function KindOf(k: Key): PeriodType {
    match k
    case Day(_, _, _) => Daily
    case Week(_, _) => Weekly
    case Month(_, _) => Monthly
  }

  predicate KeyValid(k: Key) {
    match k
    case Day(y, m, d) => ValidDate(Date(y, m, d))
    case Week(y, w) => 1 <= w <= WeeksInIsoYear(y)
    case Month(_, m) => 1 <= m <= 12
  }

  /** Ordinal of the Monday that starts ISO week `w` of ISO year `y`. */
  function MondayOf(y: int, w: int): int {
    Week1Monday(y) + 7 * (w - 1)
  }

  /** Ordinal of the first day of the period. */
  function Start(k: Key): int
    requires KeyValid(k)
  {
    match k
    case Day(y, m, d) => Ordinal(Date(y, m, d))
    case Week(y, w) => MondayOf(y, w)
    case Month(y, m) => Ordinal(Date(y, m, 1))
  }

  /** Number of days in the period. */
  function Length(k: Key): int {
    match k
    case Day(_, _, _) => 1
    case Week(_, _) => 7
    case Month(y, m) => DaysInMonth(y, m)
  }

  /** The period holds the date. */
  predicate Contains(k: Key, d: Date)
    requires KeyValid(k) && ValidDate(d)
  {
    Start(k) <= Ordinal(d) < Start(k) + Length(k)
  }

  /** Place of the period on the line of periods of its kind. */
  function Pos(k: Key): int
    requires KeyValid(k)
  {
    match k
    case Day(y, m, d) => Ordinal(Date(y, m, d))
    case Week(y, w) => (MondayOf(y, w) - 1) / 7
    case Month(y, m) => 12 * y + m - 1
  }

  /** The period of kind `t` that holds `ts` (the three branches of `period_index`). */
  function KeyOf(ts: Date, t: PeriodType): (k: Key)
    requires ValidDate(ts)
    ensures KeyValid(k) && KindOf(k) == t && Contains(k, ts)
  {
    match t
    case Daily => Day(ts.year, ts.month, ts.day)
    case Weekly =>
      var iso := IsoCalendar(ts);
      Week(iso.isoYear, iso.week)
    case Monthly =>
      DateOrderIsOrdinalOrder(Date(ts.year, ts.month, 1), ts);
      DateOrderIsOrdinalOrder(ts, Date(ts.year, ts.month, DaysInMonth(ts.year, ts.month)));
      Month(ts.year, ts.month)
  }

  /** `period_index`: the key of the period holding `ts`, or an error for an unknown period type. */
  function PeriodIndex(ts: Date, periodType: int): (r: Result<Key>)
    requires ValidDate(ts)
    ensures r.Err? <==> periodType !in {PERIOD_DAILY, PERIOD_WEEKLY, PERIOD_MONTHLY}
    ensures r.Err? ==> r.error == UnknownPeriodType
    ensures r.Ok? ==> KeyValid(r.value) && CodeOf(KindOf(r.value)) == periodType && Contains(r.value, ts)
  {
    match PeriodTypeOf(periodType)
    case Ok(t) => Ok(KeyOf(ts, t))
    case Err(e) => Err(e)
  }

  /** A valid week key's Monday lies in its own ISO year. */
  lemma WeekInItsYear(y: int, w: int)
    requires 1 <= w <= WeeksInIsoYear(y)
    ensures InIsoYear(y, MondayOf(y, w)) && InIsoYear(y, MondayOf(y, w) + 6)
    ensures IsMonday(MondayOf(y, w))
  {
    IsoYearLength(y);
    MondayAfterWeeks(Week1Monday(y), w - 1);
  }

  /** Every day of ISO week `w` of `y` gets exactly `(y, w)` from `isocalendar`. */
  lemma IsoCalendarOfWeekDay(y: int, w: int, d: Date)
    requires 1 <= w <= WeeksInIsoYear(y) && ValidDate(d)
    requires MondayOf(y, w) <= Ordinal(d) < MondayOf(y, w) + 7
    ensures IsoCalendar(d).isoYear == y && IsoCalendar(d).week == w
  {
    WeekInItsYear(y, w);
    var iso := IsoCalendar(d);
    IsoYearUnique(iso.isoYear, y, Ordinal(d));
  }

  /** December 28 always lies in the last ISO week of its year. */
  lemma Dec28InLastWeek(y: int)
    ensures IsoCalendar(Date(y, 12, 28)).isoYear == y
    ensures IsoCalendar(Date(y, 12, 28)).week == WeeksInIsoYear(y)
  {
    var n := Ordinal(Date(y, 12, 28));
    YearStep(y);
    LastMonthStep(y);
    assert n == NewYear(y + 1) - 4;
    Week1MondayNearNewYear(y);
    Week1MondayNearNewYear(y + 1);
    IsoYearLength(y);
    IsoCalendarOfWeekDay(y, WeeksInIsoYear(y), Date(y, 12, 28));
  }

  /**
   * The ordinal `strptime(f'{y}-W{w}-1', "%G-W%V-%u")` produces: day of year
   * `7 * w + 1 - (isoweekday(January 4) + 3)`, counted from January 1 of `y`.
   */
  function StrptimeIsoMonday(y: int, w: int): int {
    var correction := (Weekday(Ordinal(Date(y, 1, 4))) + 1) + 3;
    var julian := w * 7 + 1 - correction;
    NewYear(y) + julian - 1
  }

  lemma StrptimeIsoMondayIsMondayOf(y: int, w: int)
    ensures StrptimeIsoMonday(y, w) == MondayOf(y, w)
  {
    var jan4 := Ordinal(Date(y, 1, 4));
    WeekdayInWeek(Week1Monday(y), jan4);
  }

  /** The date on ordinal `n`, reached from January 1 of `y`. */
  function DateAt(y: int, n: int): (d: Date)
    ensures ValidDate(d) && Ordinal(d) == n
  {
    assert Ordinal(Date(y, 1, 1)) == NewYear(y);
    Shift(Date(y, 1, 1), n - NewYear(y))
  }

  /** The week key of the ISO week that starts on Monday `n`. */
  lemma WeekOfMonday(y: int, n: int)
    requires IsMonday(n)
    ensures var iso := IsoCalendar(DateAt(y, n));
      KeyValid(Week(iso.isoYear, iso.week)) && MondayOf(iso.isoYear, iso.week) == n
  {
    var iso := IsoCalendar(DateAt(y, n));
    WeekInItsYear(iso.isoYear, iso.week);
    MondayInWeek(MondayOf(iso.isoYear, iso.week), n);
  }

  /**
   * The weekly branch of `previous_period`: week 1 steps to the last ISO week of the
   * previous year (read off December 28), any other week to the week before; the
   * result goes through `strptime` to its Monday and back through `isocalendar`.
   */
  function PreviousWeek(y: int, w: int): (r: Key)
    requires KeyValid(Week(y, w))
    ensures r.Week? && KeyValid(r)
    ensures MondayOf(r.isoYear, r.week) + 7 == MondayOf(y, w)
  {
    var year := if w == 1 then y - 1 else y;
    var week := if w == 1 then IsoCalendar(Date(y - 1, 12, 28)).week else w - 1;
    Dec28InLastWeek(y - 1);
    IsoYearLength(y - 1);
    assert MondayOf(year, week) + 7 == MondayOf(y, w);
    StrptimeIsoMondayIsMondayOf(year, week);
    var dt := DateAt(year, StrptimeIsoMonday(year, week));
    IsoCalendarOfWeekDay(year, week, dt);
    Week(IsoCalendar(dt).isoYear, IsoCalendar(dt).week)
  }

  /** `previous_period`: the period immediately before `k`, ending where `k` starts. */
  function PreviousPeriod(k: Key): (r: Key)
    requires KeyValid(k)
    ensures KeyValid(r) && KindOf(r) == KindOf(k)
    ensures Pos(r) == Pos(k) - 1
    ensures Start(r) + Length(r) == Start(k)
  {
    match k
    case Day(y, m, d) =>
      var p := PrevDay(Date(y, m, d));
      Day(p.year, p.month, p.day)
    case Week(y, w) =>
      PreviousWeek(y, w)
    case Month(y, m) =>
      if m == 1 then
        YearStep(y - 1);
        LastMonthStep(y - 1);
        Month(y - 1, 12)
      else
        MonthStep(y, m - 1);
        Month(y, m - 1)
  }

  /**
   * `next_period` (imported by the tests, defined here): the period immediately after `k`.
   * Weeks advance by taking the key's Monday, adding seven days and reading the ISO week.
   */
  function NextPeriod(k: Key): (r: Key)
    requires KeyValid(k)
    ensures KeyValid(r) && KindOf(r) == KindOf(k)
    ensures Pos(r) == Pos(k) + 1
    ensures Start(r) == Start(k) + Length(k)
  {
    match k
    case Day(y, m, d) =>
      var n := NextDay(Date(y, m, d));
      Day(n.year, n.month, n.day)
    case Week(y, w) =>
      WeekInItsYear(y, w);
      var dt := DateAt(y, MondayOf(y, w) + 7);
      WeekOfMonday(y, MondayOf(y, w) + 7);
      Week(IsoCalendar(dt).isoYear, IsoCalendar(dt).week)
    case Month(y, m) =>
      if m == 12 then
        YearStep(y);
        LastMonthStep(y);
        Month(y + 1, 1)
      else
        MonthStep(y, m);
        Month(y, m + 1)
  }

  /** Python's tuple order on two keys of one kind (used by `sorted` in `longest_streak`). */
  predicate KeyLess(a: Key, b: Key)
    ensures KeyLess(a, b) ==> KindOf(a) == KindOf(b) && a != b
  {
    match (a, b)
    case (Day(y1, m1, d1), Day(y2, m2, d2)) => DateLess(Date(y1, m1, d1), Date(y2, m2, d2))
    case (Week(y1, w1), Week(y2, w2)) => y1 < y2 || (y1 == y2 && w1 < w2)
    case (Month(y1, m1), Month(y2, m2)) => y1 < y2 || (y1 == y2 && m1 < m2)
    case _ => false
  }

  /**
   * On valid keys of one kind, tuple order is chronological order, and a key is
   * determined by its place on the period line.
   */
  lemma KeyOrder(a: Key, b: Key)
    requires KeyValid(a) && KeyValid(b) && KindOf(a) == KindOf(b)
    ensures KeyLess(a, b) <==> Pos(a) < Pos(b)
    ensures a == b <==> Pos(a) == Pos(b)
  {
    match (a, b)
    case (Day(y1, m1, d1), Day(y2, m2, d2)) =>
      DateOrderIsOrdinalOrder(Date(y1, m1, d1), Date(y2, m2, d2));
    case (Week(y1, w1), Week(y2, w2)) =>
      WeekInItsYear(y1, w1);
      WeekInItsYear(y2, w2);
      if y1 < y2 {
        Week1MondayMonotone(y1, y2);
      } else if y2 < y1 {
        Week1MondayMonotone(y2, y1);
      }
    case (Month(y1, m1), Month(y2, m2)) =>
  }

  /** A key is the only valid key of its kind at its place on the period line. */
  lemma PosInjective(a: Key, b: Key)
    requires KeyValid(a) && KeyValid(b) && KindOf(a) == KindOf(b)
    requires Pos(a) == Pos(b)
    ensures a == b
  {
    KeyOrder(a, b);
  }

  /** `next_period(previous_period(k)) == k` for every valid key. */
  lemma NextUndoesPrevious(k: Key)
    requires KeyValid(k)
    ensures NextPeriod(PreviousPeriod(k)) == k
  {
    PosInjective(NextPeriod(PreviousPeriod(k)), k);
  }

  /** `previous_period(next_period(k)) == k` for every valid key. */
  lemma PreviousUndoesNext(k: Key)
    requires KeyValid(k)
    ensures PreviousPeriod(NextPeriod(k)) == k
  {
    PosInjective(PreviousPeriod(NextPeriod(k)), k);
  }

  /** A period of one kind that lies earlier on the line ends no later than a later one starts. */
  lemma {:induction false} EarlierEndsFirst(a: Key, b: Key)
    requires KeyValid(a) && KeyValid(b) && KindOf(a) == KindOf(b)
    requires Pos(a) < Pos(b)
    ensures Start(a) + Length(a) <= Start(b)
    decreases Pos(b) - Pos(a)
  {
    var n := NextPeriod(a);
    if Pos(n) == Pos(b) {
      PosInjective(n, b);
    } else {
      EarlierEndsFirst(n, b);
    }
  }

  /** `period_index` is the unique valid key of its kind that holds the date. */
  lemma PeriodIndexUnique(k: Key, ts: Date, t: PeriodType)
    requires ValidDate(ts) && KeyValid(k) && KindOf(k) == t && Contains(k, ts)
    ensures k == KeyOf(ts, t)
  {
    var j := KeyOf(ts, t);
    KeyOrder(k, j);
    if Pos(k) < Pos(j) {
      EarlierEndsFirst(k, j);
    } else if Pos(j) < Pos(k) {
      EarlierEndsFirst(j, k);
    }
  }

  /** A later date never lies in an earlier period. */
  lemma KeyOfMonotone(a: Date, b: Date, t: PeriodType)
    requires ValidDate(a) && ValidDate(b) && Ordinal(a) <= Ordinal(b)
    ensures Pos(KeyOf(a, t)) <= Pos(KeyOf(b, t))
  {
    if Pos(KeyOf(b, t)) < Pos(KeyOf(a, t)) {
      EarlierEndsFirst(KeyOf(b, t), KeyOf(a, t));
    }
  }

  /** The values the tests expect of `period_index`, `previous_period` and `next_period` on 2025-07-17. */
  lemma NavigationExamples()
    ensures KeyOf(Date(2025, 7, 17), Daily) == Day(2025, 7, 17)
    ensures KeyOf(Date(2025, 7, 17), Weekly) == Week(2025, 29)
    ensures KeyOf(Date(2025, 7, 17), Monthly) == Month(2025, 7)
    ensures PreviousPeriod(Day(2025, 7, 17)) == Day(2025, 7, 16)
    ensures PreviousPeriod(Month(2025, 7)) == Month(2025, 6)
    ensures NextPeriod(Month(2025, 7)) == Month(2025, 8)
    ensures PeriodIndex(Date(2025, 7, 17), 4) == Err(UnknownPeriodType)
  {
    var mon := Date(2025, 7, 14);
    assert Ordinal(mon) == MondayOf(2025, 29);
    IsoCalendarOfWeekDay(2025, 29, Date(2025, 7, 17));
  }
}
