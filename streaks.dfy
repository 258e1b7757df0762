/**
 * Streaks over a bucket map (analyse.py `current_streak` and `longest_streak`).
 * "Now" is a parameter: the source reads the wall clock for it.
 */
module Streaks {
  import opened Outcomes
  import opened Calendar
  import opened Periods

  datatype Option<T> = None | Some(value: T)

  /** `period_counts.get(idx, 0)`: a period with no events counts 0. */
  function Count(counts: map<Key, nat>, k: Key): nat {
    if k in counts then counts[k] else 0
  }

  /** The key `i` periods before `k`: `previous_period` applied `i` times. */
  function Back(k: Key, i: nat): (r: Key)
    requires KeyValid(k)
    ensures KeyValid(r) && KindOf(r) == KindOf(k) && Pos(r) == Pos(k) - i
    ensures i == 0 ==> r == k
  {
    if i == 0 then k else PreviousPeriod(Back(k, i - 1))
  }

  /** Stepping back `i + 1` periods is one `previous_period` after stepping back `i`. */
  lemma BackStep(k: Key, i: nat)
    requires KeyValid(k)
    ensures Back(k, i + 1) == PreviousPeriod(Back(k, i))
  {
  }

  /** Stepping back `i + 1` periods and then one forward is stepping back `i`. */
  lemma BackThenNext(k: Key, i: nat)
    requires KeyValid(k)
    ensures NextPeriod(Back(k, i + 1)) == Back(k, i)
  {
    NextUndoesPrevious(Back(k, i));
  }

  /**
   * `n` is the current streak at `now`: the `n` periods ending at `now` each meet
   * `required`, and the period before them does not.
   */
  predicate IsCurrentStreak(counts: map<Key, nat>, now: Key, required: int, n: nat)
    requires KeyValid(now)
  {
    (forall i :: 0 <= i < n ==> Count(counts, Back(now, i)) >= required) &&
    Count(counts, Back(now, n)) < required
  }

  /** There is at most one current streak. */
  lemma CurrentStreakUnique(counts: map<Key, nat>, now: Key, required: int, m: nat, n: nat)
    requires KeyValid(now)
    requires IsCurrentStreak(counts, now, required, m) && IsCurrentStreak(counts, now, required, n)
    ensures m == n
  {
  }

  /** Keys of `counts` of the kind of `k` that lie at or before `k`: what is left for a backward walk. */
  ghost function NotAfter(counts: map<Key, nat>, k: Key): set<Key>
    requires KeyValid(k)
  {
    set j | j in counts && KeyValid(j) && KindOf(j) == KindOf(k) && Pos(j) <= Pos(k)
  }

  /**
   * `current_streak`: walk back from the period holding `now` while each period
   * has at least `required` events. An unknown period type is an error before any
   * walk; for a known one, `required >= 1` makes the walk stop, since only the
   * finitely many keys of `counts` can meet it.
   */
  method CurrentStreak(counts: map<Key, nat>, periodType: int, required: int, now: Date)
    returns (r: Result<nat>)
    requires ValidDate(now)
    requires PeriodTypeOf(periodType).Ok? ==> required >= 1
    ensures r.Err? <==> PeriodTypeOf(periodType).Err?
    ensures r.Err? ==> r.error == UnknownPeriodType
    ensures r.Ok? ==> IsCurrentStreak(counts, KeyOf(now, PeriodTypeOf(periodType).value), required, r.value)
  {
    hide PreviousPeriod, KeyOf, Pos, KeyValid, Contains;
    var nowIdx := PeriodIndex(now, periodType);
    if nowIdx.Err? {
      return Err(nowIdx.error);
    }
    ghost var nowKey := nowIdx.value;
    var streak: nat := 0;
    var idx := nowIdx.value;
    while true
      invariant KeyValid(idx) && idx == Back(nowKey, streak)
      invariant forall i :: 0 <= i < streak ==> Count(counts, Back(nowKey, i)) >= required
      decreases NotAfter(counts, idx)
    {
      if Count(counts, idx) >= required {
        var prev := PreviousPeriod(idx);
        assert idx in NotAfter(counts, idx) && idx !in NotAfter(counts, prev);
        assert NotAfter(counts, prev) <= NotAfter(counts, idx);
        streak := streak + 1;
        idx := prev;
      } else {
        break;
      }
    }
    return Ok(streak);
  }

  /** The consecutive periods ending at `end`, `n` of them, earliest first. */
  function Timeline(end: Key, n: nat): (ks: seq<Key>)
    requires KeyValid(end)
    ensures |ks| == n
    ensures forall j :: 0 <= j < n ==>
      KeyValid(ks[j]) && KindOf(ks[j]) == KindOf(end) && Pos(ks[j]) == Pos(end) - (n - 1 - j)
  {
    seq(n, j requires 0 <= j < n => Back(end, n - 1 - j))
  }

  /** The `j`-th period of a timeline is `n - 1 - j` periods before its end. */
  lemma TimelineAt(end: Key, n: nat, j: int)
    requires KeyValid(end) && 0 <= j < n
    ensures Timeline(end, n)[j] == Back(end, n - 1 - j)
  {
    hide PreviousPeriod, Pos, KeyValid;
  }

  /** A timeline has no gaps: each period is followed by the next one, and it ends at `end`. */
  lemma TimelineSteps(end: Key, n: nat)
    requires KeyValid(end)
    ensures n > 0 ==> Timeline(end, n)[n - 1] == end
    ensures forall j :: 0 <= j < n - 1 ==> NextPeriod(Timeline(end, n)[j]) == Timeline(end, n)[j + 1]
  {
    hide PreviousPeriod, NextPeriod, Pos, KeyValid;
    if n > 0 {
      TimelineAt(end, n, n - 1);
    }
    forall j | 0 <= j < n - 1
      ensures NextPeriod(Timeline(end, n)[j]) == Timeline(end, n)[j + 1]
    {
      TimelineAt(end, n, j);
      TimelineAt(end, n, j + 1);
      BackThenNext(end, n - 2 - j);
    }
  }

  /** Which periods of a timeline meet `required`. */
  function Meets(counts: map<Key, nat>, required: int, ks: seq<Key>): (f: seq<bool>)
    ensures |f| == |ks|
    ensures forall j :: 0 <= j < |ks| ==> (f[j] <==> Count(counts, ks[j]) >= required)
  {
    seq(|ks|, j requires 0 <= j < |ks| => Count(counts, ks[j]) >= required)
  }

  predicate AllTrue(f: seq<bool>, i: int, j: int)
    requires 0 <= i <= j <= |f|
  {
    forall k :: i <= k < j ==> f[k]
  }

  /** `f` holds a run of `n` times `true` starting at `i`. */
  predicate RunAt(f: seq<bool>, i: int, n: int) {
    0 <= i && 0 <= n && i + n <= |f| && AllTrue(f, i, i + n)
  }

  /** Length of the run of `true` at the end of `f`. */
  function TrailingRun(f: seq<bool>): (n: nat)
    ensures n <= |f|
    ensures AllTrue(f, |f| - n, |f|)
    ensures n < |f| ==> !f[|f| - 1 - n]
  {
    if f == [] || !f[|f| - 1] then 0
    else TrailingRun(f[..|f| - 1]) + 1
  }

  function Max(a: int, b: int): int {
    if a < b then b else a
  }

  /** Length of the longest run of `true` in `f`, as the loop of `longest_streak` tracks it. */
  function LongestRun(f: seq<bool>): (n: nat)
    ensures n <= |f|
    ensures TrailingRun(f) <= n
  {
    if f == [] then 0
    else Max(LongestRun(f[..|f| - 1]), TrailingRun(f))
  }

  /** Some run of `true` in `f` is as long as `LongestRun(f)`. */
  lemma {:induction false} LongestRunAchieved(f: seq<bool>)
    ensures exists i :: RunAt(f, i, LongestRun(f))
  {
    if f == [] {
      assert RunAt(f, 0, 0);
    } else {
      var init := f[..|f| - 1];
      if LongestRun(f) == TrailingRun(f) {
        assert RunAt(f, |f| - TrailingRun(f), LongestRun(f));
      } else {
        LongestRunAchieved(init);
        var i :| RunAt(init, i, LongestRun(init));
        assert forall k :: 0 <= k < |init| ==> init[k] == f[k];
        assert RunAt(f, i, LongestRun(f));
      }
    }
  }

  /** Every run of `true` in `f` is at most `LongestRun(f)` long. */
  lemma {:induction false} LongestRunMaximal(f: seq<bool>, i: int, j: int)
    requires 0 <= i <= j <= |f| && AllTrue(f, i, j)
    ensures j - i <= LongestRun(f)
  {
    if j < |f| {
      var init := f[..|f| - 1];
      assert AllTrue(init, i, j);
      LongestRunMaximal(init, i, j);
    } else {
      TrailingRunMaximal(f, i);
    }
  }

  /** A run of `true` reaching the end of `f` is at most `TrailingRun(f)` long. */
  lemma {:induction false} TrailingRunMaximal(f: seq<bool>, i: int)
    requires 0 <= i <= |f| && AllTrue(f, i, |f|)
    ensures |f| - i <= TrailingRun(f)
  {
    if i < |f| {
      var init := f[..|f| - 1];
      assert f[|f| - 1];
      assert AllTrue(init, i, |init|);
      TrailingRunMaximal(init, i);
    }
  }

  /** With no period meeting the requirement there is no run. */
  lemma {:induction false} NoMeetNoRun(f: seq<bool>)
    requires forall j :: 0 <= j < |f| ==> !f[j]
    ensures LongestRun(f) == 0
  {
    if f != [] {
      NoMeetNoRun(f[..|f| - 1]);
    }
  }

  /** `k` is the earliest key of `counts`: the first of `sorted(period_counts.keys())`. */
  predicate IsEarliest(counts: map<Key, nat>, k: Key) {
    k in counts && KeyValid(k) &&
    forall j :: j in counts && KeyValid(j) && KindOf(j) == KindOf(k) ==> Pos(k) <= Pos(j)
  }

  /** All keys of `counts` are valid keys of the period type with code `periodType`. */
  predicate KeysOfType(counts: map<Key, nat>, periodType: int) {
    forall k :: k in counts ==> KeyValid(k) && CodeOf(KindOf(k)) == periodType
  }

  /** `sorted(period_counts.keys())[0]`: the least key in tuple order. */
  method EarliestKey(counts: map<Key, nat>, t: PeriodType) returns (start: Key)
    requires counts != map[] && KeysOfType(counts, CodeOf(t))
    ensures IsEarliest(counts, start) && KindOf(start) == t
    ensures forall k :: k in counts ==> !KeyLess(k, start)
  {
    var rest := counts.Keys;
    start :| start in rest;
    assert CodeOf(KindOf(start)) == CodeOf(t);
    while rest != {}
      invariant rest <= counts.Keys && start in counts && KindOf(start) == t
      invariant forall k :: k in counts && k !in rest ==> Pos(start) <= Pos(k)
      decreases rest
    {
      var k :| k in rest;
      assert CodeOf(KindOf(k)) == CodeOf(t);
      KeyOrder(k, start);
      if KeyLess(k, start) {
        start := k;
      }
      rest := rest - {k};
    }
    forall k | k in counts
      ensures !KeyLess(k, start)
    {
      assert CodeOf(KindOf(k)) == CodeOf(t);
      KeyOrder(k, start);
    }
  }

  /**
   * The list `seq` of `longest_streak`: the periods from `end` back to `start`,
   * latest first, built by appending and stepping with `previous_period`.
   */
  method WalkBack(start: Key, end: Key) returns (desc: seq<Key>)
    requires KeyValid(start) && KeyValid(end) && KindOf(start) == KindOf(end)
    requires Pos(start) <= Pos(end)
    ensures |desc| == Pos(end) - Pos(start) + 1
    ensures forall i :: 0 <= i < |desc| ==> desc[i] == Back(end, i)
    ensures desc[|desc| - 1] == start
  {
    hide PreviousPeriod, Pos, KeyValid, Back;
    desc := [];
    var idx := end;
    while true
      invariant KeyValid(idx) && KindOf(idx) == KindOf(start) && Pos(start) <= Pos(idx)
      invariant idx == Back(end, |desc|)
      invariant forall i :: 0 <= i < |desc| ==> desc[i] == Back(end, i)
      decreases Pos(idx) - Pos(start)
    {
      desc := desc + [idx];
      if idx == start {
        break;
      }
      if Pos(idx) == Pos(start) {
        PosInjective(idx, start);
      }
      BackStep(end, |desc| - 1);
      idx := PreviousPeriod(idx);
    }
  }

  /** The scan of `longest_streak` over the ascending periods: the longest run that meets `required`. */
  method LongestRunIn(counts: map<Key, nat>, required: int, ks: seq<Key>) returns (maxRun: nat)
    ensures maxRun == LongestRun(Meets(counts, required, ks))
  {
    ghost var f := Meets(counts, required, ks);
    maxRun := 0;
    var run := 0;
    for j := 0 to |ks|
      invariant run == TrailingRun(f[..j]) && maxRun == LongestRun(f[..j])
    {
      assert f[..j + 1][..j] == f[..j];
      if Count(counts, ks[j]) >= required {
        run := run + 1;
        if run > maxRun {
          maxRun := run;
        }
      } else {
        run := 0;
      }
    }
    assert f[..|ks|] == f;
  }

  /**
   * `longest_streak`, walking from the period holding `now` back to the earliest
   * key (the direction the source's comment at analyse.py:157 describes; the loop
   * as written walks the other way, see `WalkAsWritten`), reversing, then
   * scanning for the longest run of periods that meet `required`.
   */
  method LongestStreak(counts: map<Key, nat>, periodType: int, required: int, now: Date)
    returns (longest: nat)
    requires ValidDate(now) && KeysOfType(counts, periodType)
    requires counts != map[] ==> exists k :: k in counts && KeyValid(k) && Pos(k) <= Pos(KeyOf(now, KindOf(k)))
    ensures counts == map[] ==> longest == 0
    ensures counts != map[] ==> exists start :: IsEarliest(counts, start)
    ensures forall start :: IsEarliest(counts, start) ==>
      var end := KeyOf(now, KindOf(start));
      Pos(start) <= Pos(end) &&
      longest == LongestRun(Meets(counts, required, Timeline(end, Pos(end) - Pos(start) + 1)))
  {
    hide PreviousPeriod, KeyOf, Pos, KeyValid, Contains, Back, Timeline, LongestRun, Meets;
    if counts == map[] {
      return 0;
    }
    var some :| some in counts;
    var t := PeriodTypeOf(periodType).value;
    assert CodeOf(KindOf(some)) == periodType;
    var start := EarliestKey(counts, t);
    var w :| w in counts && KeyValid(w) && Pos(w) <= Pos(KeyOf(now, KindOf(w)));
    EarliestNotAfter(counts, t, start, w, now);
    longest := LongestFrom(counts, periodType, t, start, required, now);
    ghost var end := KeyOf(now, t);
    assert longest == LongestRun(Meets(counts, required, Timeline(end, Pos(end) - Pos(start) + 1)));
    forall s | IsEarliest(counts, s)
      ensures var end := KeyOf(now, KindOf(s));
        Pos(s) <= Pos(end) &&
        longest == LongestRun(Meets(counts, required, Timeline(end, Pos(end) - Pos(s) + 1)))
    {
      assert CodeOf(KindOf(s)) == CodeOf(t);
      CodeOfInjective(KindOf(s), t);
      PosInjective(s, start);
    }
    assert IsEarliest(counts, start);
  }

  /**
   * The body of `longest_streak` once the earliest key `start` is known: walk from the
   * period holding `now` back to `start`, reverse, and scan for the longest run.
   */
  method LongestFrom(counts: map<Key, nat>, periodType: int, t: PeriodType, start: Key, required: int, now: Date)
    returns (longest: nat)
    requires ValidDate(now) && PeriodTypeOf(periodType) == Ok(t)
    requires KeyValid(start) && KindOf(start) == t && Pos(start) <= Pos(KeyOf(now, t))
    ensures var end := KeyOf(now, t);
      longest == LongestRun(Meets(counts, required, Timeline(end, Pos(end) - Pos(start) + 1)))
  {
    hide PreviousPeriod, KeyOf, Pos, KeyValid, Contains, Back, Timeline, LongestRun, Meets;
    var end := PeriodIndex(now, periodType).value;
    assert end == KeyOf(now, t);
    var desc := WalkBack(start, end);
    var n := |desc|;
    // `seq.reverse()`
    var asc := seq(n, j requires 0 <= j < n => desc[n - 1 - j]);
    forall j | 0 <= j < n
      ensures asc[j] == Timeline(end, n)[j]
    {
      TimelineAt(end, n, j);
    }
    assert asc == Timeline(end, n);
    longest := LongestRunIn(counts, required, asc);
  }

  /** When some key lies at or before now's period, so does the earliest key. */
  lemma EarliestNotAfter(counts: map<Key, nat>, t: PeriodType, start: Key, w: Key, now: Date)
    requires ValidDate(now) && KeysOfType(counts, CodeOf(t)) && IsEarliest(counts, start) && KindOf(start) == t
    requires w in counts && KeyValid(w) && Pos(w) <= Pos(KeyOf(now, KindOf(w)))
    ensures Pos(start) <= Pos(KeyOf(now, t))
  {
    hide KeyOf, Pos;
    assert CodeOf(KindOf(w)) == CodeOf(t);
    assert KindOf(w) == t;
  }

  /**
   * The walk of analyse.py:150-156 as written: start at the earliest key, step with
   * `previous_period` until the key equals the current one, for at most `fuel` steps.
   */
  function WalkAsWritten(idx: Key, end: Key, fuel: nat): (r: Option<seq<Key>>)
    requires KeyValid(idx)
    decreases fuel
    ensures r.Some? ==> r.value != [] && r.value[|r.value| - 1] == end
  {
    if idx == end then Some([idx])
    else if fuel == 0 then None
    else
      match WalkAsWritten(PreviousPeriod(idx), end, fuel - 1)
      case None => None
      case Some(s) => Some([idx] + s)
  }

  /** When the earliest key lies before the current one, the walk as written never arrives. */
  lemma {:induction false} WalkAsWrittenNeverArrives(idx: Key, end: Key, fuel: nat)
    requires KeyValid(idx) && KeyValid(end) && KindOf(idx) == KindOf(end) && Pos(idx) < Pos(end)
    ensures WalkAsWritten(idx, end, fuel) == None
    decreases fuel
  {
    if fuel > 0 {
      WalkAsWrittenNeverArrives(PreviousPeriod(idx), end, fuel - 1);
    }
  }

  /**
   * The loop of `current_streak` as written, for at most `fuel` periods: `None` when
   * it has not stopped yet, otherwise the streak it returns.
   */
  function CurrentWalk(counts: map<Key, nat>, idx: Key, required: int, fuel: nat): (r: Option<nat>)
    requires KeyValid(idx)
    decreases fuel
  {
    if Count(counts, idx) < required then Some(0)
    else if fuel == 0 then None
    else
      match CurrentWalk(counts, PreviousPeriod(idx), required, fuel - 1)
      case None => None
      case Some(n) => Some(n + 1)
  }

  /** Whenever the loop as written stops, it returns the current streak at `idx`. */
  lemma {:induction false} CurrentWalkIsStreak(counts: map<Key, nat>, idx: Key, required: int, fuel: nat)
    requires KeyValid(idx)
    ensures CurrentWalk(counts, idx, required, fuel).Some? ==>
      IsCurrentStreak(counts, idx, required, CurrentWalk(counts, idx, required, fuel).value)
    decreases fuel
  {
    hide PreviousPeriod, Pos, Back, KeyValid;
    if Count(counts, idx) >= required && fuel > 0 {
      var prev := PreviousPeriod(idx);
      CurrentWalkIsStreak(counts, prev, required, fuel - 1);
      var r := CurrentWalk(counts, prev, required, fuel - 1);
      if r.Some? {
        CurrentStreakStep(counts, idx, required, r.value);
      }
    }
  }

  /** Stepping back `i + 1` periods from `k` is stepping back `i` from the period before `k`. */
  lemma BackShift(k: Key, i: nat)
    requires KeyValid(k)
    ensures Back(k, i + 1) == Back(PreviousPeriod(k), i)
  {
    PosInjective(Back(k, i + 1), Back(PreviousPeriod(k), i));
  }

  /** A streak of `n` ending at the previous period grows to `n + 1` when `k` meets the requirement too. */
  lemma CurrentStreakStep(counts: map<Key, nat>, k: Key, required: int, n: nat)
    requires KeyValid(k) && Count(counts, k) >= required
    requires IsCurrentStreak(counts, PreviousPeriod(k), required, n)
    ensures IsCurrentStreak(counts, k, required, n + 1)
  {
    hide PreviousPeriod, Pos, Back;
    BackShift(k, n);
    forall i | 0 < i < n + 1
      ensures Count(counts, Back(k, i)) >= required
    {
      BackShift(k, i - 1);
    }
  }

  /** With `required <= 0` every period meets the requirement, so the loop never takes its `break`. */
  lemma {:induction false} CurrentWalkNeverStops(counts: map<Key, nat>, idx: Key, required: int, fuel: nat)
    requires KeyValid(idx) && required <= 0
    ensures CurrentWalk(counts, idx, required, fuel) == None
    decreases fuel
  {
    if fuel > 0 {
      CurrentWalkNeverStops(counts, PreviousPeriod(idx), required, fuel - 1);
    }
  }

  /**
   * The current streak never exceeds the longest run over the periods from the
   * earliest key up to now: the periods of the current streak all hold events,
   * so they lie on that timeline and end it.
   */
  lemma CurrentAtMostLongest(counts: map<Key, nat>, required: int, now: Key, start: Key, n: nat)
    requires KeyValid(now) && required >= 1
    requires IsEarliest(counts, start) && KindOf(start) == KindOf(now) && Pos(start) <= Pos(now)
    requires IsCurrentStreak(counts, now, required, n)
    ensures n <= LongestRun(Meets(counts, required, Timeline(now, Pos(now) - Pos(start) + 1)))
  {
    hide PreviousPeriod, NextPeriod, KeyOf, Pos, KeyValid, Contains, Back, Timeline;
    if n > 0 {
      var m := Pos(now) - Pos(start) + 1;
      var last := Back(now, n - 1);
      assert Count(counts, last) >= required;
      assert Pos(start) <= Pos(last);
      var f := Meets(counts, required, Timeline(now, m));
      forall j | m - n <= j < m
        ensures f[j]
      {
        TimelineAt(now, m, j);
        assert Count(counts, Back(now, m - 1 - j)) >= required;
      }
      assert RunAt(f, m - n, n);
      LongestRunMaximal(f, m - n, m);
    }
  }

  /** Within one month, stepping back `i` days lowers the day of the month by `i`. */
  lemma {:induction false} BackWithinMonth(y: int, m: int, d: int, i: nat)
    requires ValidDate(Date(y, m, d)) && i < d
    ensures Back(Day(y, m, d), i) == Day(y, m, d - i)
  {
    hide PreviousWeek, NextPeriod, Pos, Back, Ordinal, DaysInMonth, KeyValid;
    if i > 0 {
      BackWithinMonth(y, m, d, i - 1);
      BackStep(Day(y, m, d), i - 1);
    }
  }

  /** The buckets of the streak test: five days from July 13 2025, a gap, then July 20 and 21. */
  function ExampleCounts(): map<Key, nat> {
    map[Day(2025, 7, 13) := 1, Day(2025, 7, 14) := 1, Day(2025, 7, 15) := 1,
        Day(2025, 7, 16) := 1, Day(2025, 7, 17) := 1,
        Day(2025, 7, 20) := 1, Day(2025, 7, 21) := 1]
  }

  /**
   * The current streak on the test's buckets with one event required: 5 when now is
   * July 17 2025 (the value the test expects), 2 when now is July 21.
   */
  lemma CurrentStreakExample()
    ensures IsCurrentStreak(ExampleCounts(), Day(2025, 7, 17), 1, 5)
    ensures IsCurrentStreak(ExampleCounts(), Day(2025, 7, 21), 1, 2)
  {
    hide PreviousPeriod, NextPeriod, Pos, KeyValid, Back;
    forall i | 0 <= i <= 5 {
      BackWithinMonth(2025, 7, 17, i);
    }
    forall i | 0 <= i <= 2 {
      BackWithinMonth(2025, 7, 21, i);
    }
  }

  /**
   * The longest streak on the test's buckets with now July 21 2025: the timeline runs
   * from July 13 over nine days; with one event required the longest run is 5, with
   * two it is 0.
   */
  lemma LongestStreakExample()
    ensures IsEarliest(ExampleCounts(), Day(2025, 7, 13))
    ensures Pos(Day(2025, 7, 21)) - Pos(Day(2025, 7, 13)) + 1 == 9
    ensures LongestRun(Meets(ExampleCounts(), 1, Timeline(Day(2025, 7, 21), 9))) == 5
    ensures LongestRun(Meets(ExampleCounts(), 2, Timeline(Day(2025, 7, 21), 9))) == 0
  {
    hide PreviousPeriod, NextPeriod, Pos, Back, Timeline, LongestRun;
    var counts, end := ExampleCounts(), Day(2025, 7, 21);
    var tl := Timeline(end, 9);
    forall j | 0 <= j < 9
      ensures tl[j] == Day(2025, 7, 13 + j)
    {
      TimelineAt(end, 9, j);
      BackWithinMonth(2025, 7, 21, 8 - j);
    }
    assert Meets(counts, 1, tl) == [true, true, true, true, true, false, false, true, true];
    ExampleRun();
    NoMeetNoRun(Meets(counts, 2, tl));
    ExampleEarliest();
  }

  /** July 13 2025 is the earliest key of the test's buckets, eight days before July 21. */
  lemma ExampleEarliest()
    ensures IsEarliest(ExampleCounts(), Day(2025, 7, 13))
    ensures Pos(Day(2025, 7, 21)) - Pos(Day(2025, 7, 13)) + 1 == 9
  {
    hide PreviousPeriod, NextPeriod;
    var counts := ExampleCounts();
    forall k | k in counts && KeyValid(k) && KindOf(k) == Daily
      ensures Pos(Day(2025, 7, 13)) <= Pos(k)
    {
      DateOrderIsOrdinalOrder(Date(2025, 7, 13), Date(k.year, k.month, k.day));
    }
  }

  /** The longest run in the test's pattern: five days met, two missed, two met. */
  lemma ExampleRun()
    ensures LongestRun([true, true, true, true, true, false, false, true, true]) == 5
  {
    var f := [true, true, true, true, true, false, false, true, true];
    assert f[..1] == [true];
    assert LongestRun(f[..1]) == 1;
    assert f[..2][..1] == f[..1];
    assert LongestRun(f[..2]) == 2;
    assert f[..3][..2] == f[..2];
    assert LongestRun(f[..3]) == 3;
    assert f[..4][..3] == f[..3];
    assert LongestRun(f[..4]) == 4;
    assert f[..5][..4] == f[..4];
    assert LongestRun(f[..5]) == 5;
    assert f[..6][..5] == f[..5];
    assert LongestRun(f[..6]) == 5;
    assert f[..7][..6] == f[..6];
    assert LongestRun(f[..7]) == 5;
    assert f[..8][..7] == f[..7];
    assert TrailingRun(f[..8]) == 1;
    assert LongestRun(f[..8]) == 5;
    assert f[..9][..8] == f[..8];
    assert f[..9] == f;
  }

  /** On the test's buckets, the walk as written from July 13 never reaches July 21. */
  lemma WalkAsWrittenExample(fuel: nat)
    ensures WalkAsWritten(Day(2025, 7, 13), Day(2025, 7, 21), fuel) == None
  {
    WalkAsWrittenNeverArrives(Day(2025, 7, 13), Day(2025, 7, 21), fuel);
  }
}
