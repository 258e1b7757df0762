/**
 * The dispatch of analyse.py `analyse_counters` over the rows of the `counter`
 * and `tracker` tables, given as sequences instead of a database cursor.
 */
module Analyse {
  import opened Outcomes
  import opened Calendar
  import opened Periods
  import opened Buckets
  import opened Streaks

  /** A row of the `counter` table. */
  datatype Habit = Habit(name: string, description: string, periodType: int, periodCount: int)

  /** A row of the `tracker` table: one event of the habit `counterName`. */
  datatype Event = Event(counterName: string, timestamp: Date)

  /** The two tables, rows in table order. */
  datatype Store = Store(habits: seq<Habit>, events: seq<Event>)

  /** What `analyse_counters` returns in each mode; `NoAnswer` is the `None` of an unknown mode. */
  datatype Answer =
    | Number(n: nat)
    | Names(names: seq<string>)
    | Groups(groups: map<string, seq<string>>)
    | NoAnswer

  /** A `(period_type, name)` row of `SELECT period_type, name FROM counter`. */
  datatype Row = Row(periodType: int, name: string)

  /** `UNIT_NAMES.get(k, "?")`: the fallback "?" is used exactly for the unknown period types. */
  function UnitName(code: int): (l: string)
    ensures l == "?" <==> PeriodTypeOf(code).Err?
  {
    if code == PERIOD_DAILY then "daily"
    else if code == PERIOD_WEEKLY then "weekly"
    else if code == PERIOD_MONTHLY then "monthly"
    else "?"
  }

  /** The three known period types have three different unit names, and no other code has one of them. */
  lemma UnitNamesDistinct(a: int, b: int)
    requires UnitName(a) == UnitName(b) && UnitName(a) != "?"
    ensures a == b
  {
  }

  /** `get_counter_data(db, name)`: the events of the habit `name`, in table order. */
  function EventsOf(events: seq<Event>, name: string): (r: seq<Event>)
    ensures forall e :: multiset(r)[e] == if e.counterName == name then multiset(events)[e] else 0
  {
    if events == [] then []
    else
      var rest := EventsOf(events[1..], name);
      assert events == [events[0]] + events[1..];
      if events[0].counterName == name then [events[0]] + rest else rest
  }

  /** `[datetime.fromisoformat(ts) for _, ts in raw]`, with the dates already parsed. */
  function Timestamps(es: seq<Event>): (ts: seq<Date>)
    ensures |ts| == |es|
    ensures forall i :: 0 <= i < |es| ==> ts[i] == es[i].timestamp
  {
    seq(|es|, i requires 0 <= i < |es| => es[i].timestamp)
  }

  /** `SELECT ... FROM counter WHERE name = ?` then `fetchone()`: the first habit called `name`. */
  function FindHabit(habits: seq<Habit>, name: string): (r: Option<Habit>)
    ensures r.None? <==> forall h :: h in habits ==> h.name != name
    ensures r.Some? ==> r.value in habits && r.value.name == name
  {
    if habits == [] then None
    else if habits[0].name == name then Some(habits[0])
    else FindHabit(habits[1..], name)
  }

  /** The names of the rows with period type `code`, in row order. */
  function NamesWith(rows: seq<Row>, code: int): (r: seq<string>)
    ensures |r| <= |rows|
    ensures forall n :: n in r ==> exists i :: 0 <= i < |rows| && rows[i] == Row(code, n)
  {
    if rows == [] then []
    else
      var rest := NamesWith(rows[1..], code);
      assert forall i :: 0 <= i < |rows| - 1 ==> rows[1..][i] == rows[i + 1];
      if rows[0].periodType == code then [rows[0].name] + rest else rest
  }

  function RowNames(rows: seq<Row>): seq<string> {
    seq(|rows|, i requires 0 <= i < |rows| => rows[i].name)
  }

  /**
   * When every row has a known period type, the three groups hold between them
   * each row's name exactly once.
   */
  lemma {:induction false} NamesWithPartition(rows: seq<Row>)
    requires forall i :: 0 <= i < |rows| ==> rows[i].periodType in {PERIOD_DAILY, PERIOD_WEEKLY, PERIOD_MONTHLY}
    ensures multiset(NamesWith(rows, PERIOD_DAILY)) + multiset(NamesWith(rows, PERIOD_WEEKLY))
      + multiset(NamesWith(rows, PERIOD_MONTHLY)) == multiset(RowNames(rows))
  {
    if rows != [] {
      NamesWithPartition(rows[1..]);
      assert RowNames(rows) == [rows[0].name] + RowNames(rows[1..]);
    }
  }

  /** A period type no row has gets no names. */
  lemma {:induction false} NamesWithAbsent(rows: seq<Row>, code: int)
    requires forall i :: 0 <= i < |rows| ==> rows[i].periodType != code
    ensures NamesWith(rows, code) == []
  {
    if rows != [] {
      NamesWithAbsent(rows[1..], code);
    }
  }

  /** Appending a row appends its name to its own group and leaves the other groups alone. */
  lemma {:induction false} NamesWithAppend(rows: seq<Row>, row: Row, code: int)
    ensures NamesWith(rows + [row], code)
      == NamesWith(rows, code) + (if row.periodType == code then [row.name] else [])
  {
    if rows != [] {
      assert (rows + [row])[1..] == rows[1..] + [row];
      NamesWithAppend(rows[1..], row, code);
    } else {
      assert NamesWith([row], code) == (if row.periodType == code then [row.name] else []) + NamesWith([], code);
    }
  }

  /**
   * The period types of `rows` in the order they first appear, each once: the key
   * order of a dictionary filled row by row, as Python dictionaries keep insertion order.
   */
  function FirstSeen(rows: seq<Row>): (order: seq<int>)
    ensures forall c :: c in order <==> exists i :: 0 <= i < |rows| && rows[i].periodType == c
    ensures forall p, q :: 0 <= p < q < |order| ==> order[p] != order[q]
  {
    if rows == [] then []
    else
      var init := rows[..|rows| - 1];
      var c := rows[|rows| - 1].periodType;
      assert forall i :: 0 <= i < |init| ==> init[i] == rows[i];
      var order := FirstSeen(init);
      if c in order then order else order + [c]
  }

  /**
   * The order of `FirstSeen` is the order of first occurrence: every row whose type
   * comes later in it is preceded by a row of each type that comes earlier.
   */
  lemma {:induction false} FirstSeenOrder(rows: seq<Row>, p: int, q: int, j: int)
    requires 0 <= p < q < |FirstSeen(rows)| && 0 <= j < |rows| && rows[j].periodType == FirstSeen(rows)[q]
    ensures exists i :: 0 <= i < j && rows[i].periodType == FirstSeen(rows)[p]
  {
    var init := rows[..|rows| - 1];
    var c := rows[|rows| - 1].periodType;
    var order := FirstSeen(init);
    assert forall i :: 0 <= i < |init| ==> init[i] == rows[i];
    if j < |rows| - 1 {
      if q < |order| {
        FirstSeenOrder(init, p, q, j);
        var i :| 0 <= i < j && init[i].periodType == order[p];
        assert rows[i].periodType == FirstSeen(rows)[p];
      } else {
        assert false;
      }
    } else if q < |order| {
      var j' :| 0 <= j' < |init| && init[j'].periodType == order[q];
      FirstSeenOrder(init, p, q, j');
      var i :| 0 <= i < j' && init[i].periodType == order[p];
      assert rows[i].periodType == FirstSeen(rows)[p];
    } else {
      assert order[p] in order;
      var i :| 0 <= i < |init| && init[i].periodType == order[p];
      assert rows[i].periodType == FirstSeen(rows)[p];
    }
  }

  /** One more row adds its period type to the first-seen order when it is new. */
  lemma FirstSeenStep(rows: seq<Row>, i: int)
    requires 0 <= i < |rows|
    ensures var order := FirstSeen(rows[..i]);
      FirstSeen(rows[..i + 1]) == if rows[i].periodType in order then order else order + [rows[i].periodType]
  {
    assert rows[..i + 1][..i] == rows[..i];
  }

  /**
   * The first half of the `group_by_period_type` branch: names grouped by period type
   * in row order (`groups.setdefault(period_type, []).append(name)`), and the order in
   * which the types first appear, which is the order of the dictionary's keys.
   */
  method GroupRows(rows: seq<Row>) returns (groups: map<int, seq<string>>, order: seq<int>)
    ensures order == FirstSeen(rows)
    ensures forall c :: c in groups <==> c in order
    ensures forall c :: c in groups ==> groups[c] == NamesWith(rows, c)
  {
    groups, order := map[], [];
    for i := 0 to |rows|
      invariant order == FirstSeen(rows[..i])
      invariant forall c :: c in groups <==> c in order
      invariant forall c :: c in groups ==> groups[c] == NamesWith(rows[..i], c)
    {
      var row := rows[i];
      assert rows[..i + 1] == rows[..i] + [row];
      FirstSeenStep(rows, i);
      hide FirstSeen;
      forall c | c in groups
        ensures NamesWith(rows[..i + 1], c) == groups[c] + (if row.periodType == c then [row.name] else [])
      {
        NamesWithAppend(rows[..i], row, c);
      }
      if row.periodType !in groups {
        order := order + [row.periodType];
        NamesWithAppend(rows[..i], row, row.periodType);
        NamesWithAbsent(rows[..i], row.periodType);
        groups := groups[row.periodType := []];
      }
      groups := groups[row.periodType := groups[row.periodType] + [row.name]];
    }
    assert rows[..|rows|] == rows;
  }

  /**
   * The second half: `{ UNIT_NAMES.get(k, "?"): v for k, v in groups.items() }`, taking
   * the groups in key order; a later key with the same unit name replaces an earlier one.
   */
  method Relabel(groups: map<int, seq<string>>, order: seq<int>) returns (out: map<string, seq<string>>)
    requires forall c :: c in order ==> c in groups
    ensures forall l :: l in out <==> exists p :: 0 <= p < |order| && UnitName(order[p]) == l
    ensures forall l :: l in out ==> exists p :: LastWithName(order, |order|, p, l) && out[l] == groups[order[p]]
  {
    out := map[];
    for j := 0 to |order|
      invariant forall l :: l in out <==> exists p :: 0 <= p < j && UnitName(order[p]) == l
      invariant forall l :: l in out ==> exists p :: LastWithName(order, j, p, l) && out[l] == groups[order[p]]
    {
      var c := order[j];
      var out' := out[UnitName(c) := groups[c]];
      forall l | l in out'
        ensures exists p :: LastWithName(order, j + 1, p, l) && out'[l] == groups[order[p]]
      {
        if l == UnitName(c) {
          assert LastWithName(order, j + 1, j, l);
        } else {
          var p :| LastWithName(order, j, p, l) && out[l] == groups[order[p]];
          assert LastWithName(order, j + 1, p, l);
        }
      }
      out := out';
    }
  }

  /** Among the first `n` types of `order`, `order[p]` is the last whose unit name is `l`. */
  predicate LastWithName(order: seq<int>, n: int, p: int, l: string)
    requires n <= |order|
  {
    0 <= p < n && UnitName(order[p]) == l &&
    forall q :: p < q < n ==> UnitName(order[q]) != l
  }

  /**
   * `out` groups the rows' names by unit name: there is a group for each unit name
   * some row has; a known unit name's group is the names of the rows of that period
   * type in row order; the "?" group is the names of the rows of the unknown type
   * that first appears last among the unknown types.
   */
  ghost predicate IsGrouping(rows: seq<Row>, out: map<string, seq<string>>) {
    var order := FirstSeen(rows);
    (forall l :: l in out <==> exists i :: 0 <= i < |rows| && UnitName(rows[i].periodType) == l) &&
    (forall i :: 0 <= i < |rows| && UnitName(rows[i].periodType) != "?" ==>
      out[UnitName(rows[i].periodType)] == NamesWith(rows, rows[i].periodType)) &&
    ("?" in out ==> exists p :: LastWithName(order, |order|, p, "?") && out["?"] == NamesWith(rows, order[p]))
  }

  /**
   * The `group_by_period_type` branch: each known unit name maps to the names of the
   * rows of that period type, in row order. Two unknown types both become "?", and
   * the group of the type that first appeared later is the one kept.
   */
  method GroupByPeriodType(rows: seq<Row>) returns (out: map<string, seq<string>>)
    ensures IsGrouping(rows, out)
  {
    var groups, order := GroupRows(rows);
    out := Relabel(groups, order);
    forall l
      ensures l in out <==> exists i :: 0 <= i < |rows| && UnitName(rows[i].periodType) == l
    {
      if l in out {
        var p :| 0 <= p < |order| && UnitName(order[p]) == l;
        assert order[p] in order;
      } else {
        forall i | 0 <= i < |rows| ensures UnitName(rows[i].periodType) != l {
          assert rows[i].periodType in order;
        }
      }
    }
    forall i | 0 <= i < |rows| && UnitName(rows[i].periodType) != "?"
      ensures out[UnitName(rows[i].periodType)] == NamesWith(rows, rows[i].periodType)
    {
      assert rows[i].periodType in order;
      var p :| 0 <= p < |order| && order[p] == rows[i].periodType;
      var p' :| LastWithName(order, |order|, p', UnitName(order[p])) && out[UnitName(order[p])] == groups[order[p']];
      UnitNamesDistinct(order[p'], rows[i].periodType);
    }
  }

  /** `SELECT name FROM counter`. */
  function HabitNames(habits: seq<Habit>): (names: seq<string>)
    ensures |names| == |habits| && forall i :: 0 <= i < |habits| ==> names[i] == habits[i].name
  {
    seq(|habits|, i requires 0 <= i < |habits| => habits[i].name)
  }

  /** `SELECT period_type, name FROM counter`. */
  function HabitRows(habits: seq<Habit>): (rows: seq<Row>)
    ensures |rows| == |habits| && forall i :: 0 <= i < |habits| ==> rows[i] == Row(habits[i].periodType, habits[i].name)
  {
    seq(|habits|, i requires 0 <= i < |habits| => Row(habits[i].periodType, habits[i].name))
  }

  /** The answer of `current_streak` on `counts`, as a "streak" answer. */
  ghost predicate CurrentAnswer(counts: map<Key, nat>, periodType: int, required: int, now: Date, r: Result<Answer>)
    requires ValidDate(now)
  {
    match PeriodTypeOf(periodType)
    case Err(_) => r == Err(UnknownPeriodType)
    case Ok(t) => r.Ok? && r.value.Number? && IsCurrentStreak(counts, KeyOf(now, t), required, r.value.n)
  }

  /** The answer of `longest_streak` on `counts`, as a "streak" answer. */
  ghost predicate LongestAnswer(counts: map<Key, nat>, required: int, now: Date, r: Result<Answer>)
    requires ValidDate(now)
  {
    r.Ok? && r.value.Number? &&
    (counts == map[] ==> r.value.n == 0) &&
    (counts != map[] ==> exists start :: IsEarliest(counts, start)) &&
    forall start :: IsEarliest(counts, start) ==>
      var end := KeyOf(now, KindOf(start));
      Pos(start) <= Pos(end) &&
      r.value.n == LongestRun(Meets(counts, required, Timeline(end, Pos(end) - Pos(start) + 1)))
  }

  /**
   * The answer of the "streak" mode for habit `h` whose events fall on `ts`: an unknown
   * period type fails when there are events to bucket; the current streak also fails
   * on it, as it needs the period of `now`; the longest streak of no events is 0.
   */
  ghost predicate StreakAnswer(h: Habit, ts: seq<Date>, streakType: string, now: Date, r: Result<Answer>)
    requires AllValid(ts) && ValidDate(now)
  {
    var buckets := GetPeriodCounts(ts, h.periodType);
    if buckets.Err? then r == Err(UnknownPeriodType)
    else if streakType == "current" then CurrentAnswer(buckets.value, h.periodType, h.periodCount, now, r)
    else if streakType == "longest" then LongestAnswer(buckets.value, h.periodCount, now, r)
    else r == Err(UnknownStreakType)
  }

  /**
   * `analyse_counters` over the rows of the two tables. "count" counts the events of a
   * habit without checking that it exists; "list_all" lists the habit names;
   * "group_by_period_type" groups them; "streak" finds the habit, buckets its events
   * by its period type and computes the current or the longest streak with its
   * `period_count` as the requirement; any other mode answers nothing.
   */
  method AnalyseCounters(store: Store, mode: string, counterName: string, streakType: string, now: Date)
    returns (r: Result<Answer>)
    requires ValidDate(now) && forall e :: e in store.events ==> ValidDate(e.timestamp)
    requires (mode == "streak" && streakType == "current" && counterName != "" && FindHabit(store.habits, counterName).Some? &&
      PeriodTypeOf(FindHabit(store.habits, counterName).value.periodType).Ok?) ==>
      FindHabit(store.habits, counterName).value.periodCount >= 1
    requires (mode == "streak" && streakType == "longest" && counterName != "" && FindHabit(store.habits, counterName).Some? &&
      PeriodTypeOf(FindHabit(store.habits, counterName).value.periodType).Ok? &&
      exists e :: e in store.events && e.counterName == counterName) ==>
      exists e :: e in store.events && e.counterName == counterName && ValidDate(e.timestamp) && Ordinal(e.timestamp) <= Ordinal(now)
    ensures mode == "count" && counterName == "" ==> r == Err(MissingCounterName)
    ensures mode == "count" && counterName != "" ==> r == Ok(Number(|EventsOf(store.events, counterName)|))
    ensures mode == "list_all" ==> r == Ok(Names(HabitNames(store.habits)))
    ensures mode == "group_by_period_type" ==> r.Ok? && r.value.Groups? && IsGrouping(HabitRows(store.habits), r.value.groups)
    ensures mode == "streak" && counterName == "" ==> r == Err(MissingCounterName)
    ensures mode == "streak" && counterName != "" && FindHabit(store.habits, counterName).None? ==>
      r == Err(NoSuchHabit(counterName))
    ensures mode == "streak" && counterName != "" && FindHabit(store.habits, counterName).Some? ==>
      AllValid(Timestamps(EventsOf(store.events, counterName))) &&
      StreakAnswer(FindHabit(store.habits, counterName).value, Timestamps(EventsOf(store.events, counterName)),
        streakType, now, r)
    ensures mode !in {"count", "list_all", "group_by_period_type", "streak"} ==> r == Ok(NoAnswer)
  {
    hide PreviousPeriod, NextPeriod, KeyOf, Pos, Timeline, Back, LongestRun, Meets, Tally, PeriodKeys, Ordinal;
    if mode == "count" {
      if counterName == "" {
        return Err(MissingCounterName);
      }
      var data := EventsOf(store.events, counterName);
      return Ok(Number(|data|));
    }
    if mode == "list_all" {
      return Ok(Names(HabitNames(store.habits)));
    }
    if mode == "group_by_period_type" {
      var groups := GroupByPeriodType(HabitRows(store.habits));
      return Ok(Groups(groups));
    }
    if mode == "streak" {
      if counterName == "" {
        return Err(MissingCounterName);
      }
      var found := FindHabit(store.habits, counterName);
      if found.None? {
        return Err(NoSuchHabit(counterName));
      }
      var raw := EventsOf(store.events, counterName);
      var timestamps := Timestamps(raw);
      EventsOfValid(store.events, counterName);
      if streakType == "longest" && PeriodTypeOf(found.value.periodType).Ok? {
        EventsOfSomeNotAfter(store.events, counterName, now);
      }
      r := HabitStreak(found.value, timestamps, streakType, now);
      return;
    }
    return Ok(NoAnswer);
  }

  /**
   * Steps 3 and 4 of the "streak" mode for habit `h` whose events fall on `timestamps`:
   * bucket them by the habit's period type, then pick the streak.
   */
  method HabitStreak(h: Habit, timestamps: seq<Date>, streakType: string, now: Date) returns (r: Result<Answer>)
    requires AllValid(timestamps) && ValidDate(now)
    requires streakType == "current" && PeriodTypeOf(h.periodType).Ok? ==> h.periodCount >= 1
    requires streakType == "longest" && PeriodTypeOf(h.periodType).Ok? && timestamps != [] ==>
      exists i :: 0 <= i < |timestamps| && Ordinal(timestamps[i]) <= Ordinal(now)
    ensures StreakAnswer(h, timestamps, streakType, now, r)
  {
    hide PreviousPeriod, NextPeriod, KeyOf, Pos, Timeline, Back, LongestRun, Meets, Tally, PeriodKeys, Ordinal;
    hide CurrentAnswer, LongestAnswer;
    var buckets := GetPeriodCounts(timestamps, h.periodType);
    if buckets.Err? {
      return Err(buckets.error);
    }
    if streakType == "current" {
      r := CurrentOf(buckets.value, h.periodType, h.periodCount, now);
    } else if streakType == "longest" {
      if timestamps != [] {
        var t := PeriodTypeOf(h.periodType).value;
        var i :| 0 <= i < |timestamps| && Ordinal(timestamps[i]) <= Ordinal(now);
        CountsKeysValid(timestamps, t);
        CountNotAfter(timestamps, t, now, i);
        assert KeyOf(timestamps[i], t) in buckets.value;
      }
      r := LongestOf(buckets.value, h.periodType, h.periodCount, now);
    } else {
      r := Err(UnknownStreakType);
    }
  }

  /** `current_streak(buckets, period_type, period_count)` as a "streak" answer. */
  method CurrentOf(counts: map<Key, nat>, periodType: int, required: int, now: Date) returns (r: Result<Answer>)
    requires ValidDate(now)
    requires PeriodTypeOf(periodType).Ok? ==> required >= 1
    ensures CurrentAnswer(counts, periodType, required, now, r)
  {
    var n := CurrentStreak(counts, periodType, required, now);
    if n.Err? {
      return Err(n.error);
    }
    return Ok(Number(n.value));
  }

  /** `longest_streak(buckets, period_type, period_count)` as a "streak" answer. */
  method LongestOf(counts: map<Key, nat>, periodType: int, required: int, now: Date) returns (r: Result<Answer>)
    requires ValidDate(now) && KeysOfType(counts, periodType)
    requires counts != map[] ==> exists k :: k in counts && KeyValid(k) && Pos(k) <= Pos(KeyOf(now, KindOf(k)))
    ensures LongestAnswer(counts, required, now, r)
  {
    var n := LongestStreak(counts, periodType, required, now);
    return Ok(Number(n));
  }

  /** The dates of a habit's events are valid. */
  lemma EventsOfValid(events: seq<Event>, name: string)
    requires forall e :: e in events ==> ValidDate(e.timestamp)
    ensures AllValid(Timestamps(EventsOf(events, name)))
  {
    var es := EventsOf(events, name);
    forall i | 0 <= i < |es|
      ensures es[i] in events
    {
      assert multiset(es)[es[i]] > 0;
    }
  }

  /**
   * When the habit has an event not after `now`, one of the dates of its events is
   * not after `now`.
   */
  lemma EventsOfSomeNotAfter(events: seq<Event>, name: string, now: Date)
    requires ValidDate(now) && forall e :: e in events ==> ValidDate(e.timestamp)
    requires (exists e :: e in events && e.counterName == name) ==>
      exists e :: e in events && e.counterName == name && ValidDate(e.timestamp) && Ordinal(e.timestamp) <= Ordinal(now)
    ensures var ts := Timestamps(EventsOf(events, name));
      ts != [] ==> exists i :: 0 <= i < |ts| && ValidDate(ts[i]) && Ordinal(ts[i]) <= Ordinal(now)
  {
    var es := EventsOf(events, name);
    if es != [] {
      assert multiset(es)[es[0]] > 0;
      assert es[0] in events && es[0].counterName == name;
      var e :| e in events && e.counterName == name && ValidDate(e.timestamp) && Ordinal(e.timestamp) <= Ordinal(now);
      assert multiset(es)[e] > 0;
      var i :| 0 <= i < |es| && es[i] == e;
      assert Timestamps(es)[i] == e.timestamp;
    }
  }

  /**
   * `period_counts.get(idx, 0)` on the buckets of a habit is the number of its
   * timestamps whose period is `idx`, and 0 for a period without any.
   */
  lemma CountIsEventsInPeriod(timestamps: seq<Date>, t: PeriodType, k: Key)
    requires AllValid(timestamps)
    ensures GetPeriodCounts(timestamps, CodeOf(t)).Ok?
    ensures Count(GetPeriodCounts(timestamps, CodeOf(t)).value, k) == multiset(PeriodKeys(timestamps, t))[k]
  {
    hide KeyOf, Pos, PreviousPeriod, NextPeriod, Total;
    assert PeriodTypeOf(CodeOf(t)) == Ok(t);
    if timestamps != [] && k !in PeriodKeys(timestamps, t) {
      assert multiset(PeriodKeys(timestamps, t))[k] == 0;
    }
  }
}
