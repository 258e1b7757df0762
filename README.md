# Habit tracker analysis: period buckets and streaks

This project models the analysis engine of a command-line habit tracker (`analyse.py`).
The tracker stores habits ("counters") and their check-off events in two SQLite tables.

- Each habit has a period type: daily (1), weekly (2) or monthly (3).
- Each habit has a `period_count`: how many events one period needs.
- Each event has a timestamp.

The analysis places every timestamp in its period, keyed as a tuple:

- `(year, month, day)` for a day;
- `(ISO year, ISO week)` for a week;
- `(year, month)` for a month.

It counts the events in each period and walks the period line to compute streaks:

- the current streak runs back from the period holding "now";
- the longest streak is the longest run of good periods between the earliest event and now.

`analyse_counters` dispatches between four modes:

- counting events;
- listing habits;
- grouping habits by period type;
- streaks.

The Dafny modules follow that structure:

- `Outcomes`: the error cases (`ValueError`s of the source) and a `Result` type.
- `Calendar`: the proleptic Gregorian calendar as Python's `datetime` implements it. It covers day ordinals (`toordinal`), the weekday, and `isocalendar()`: the ISO year, the week and the weekday. It also covers the ISO-year boundaries around 4 January.
- `Periods`: the period key (`Day`, `Week`, `Month`) and `period_index` (`PeriodIndex`/`KeyOf`). It also holds `previous_period` and the tests' `next_period`. Each key has a position `Pos` on its period line, a first day `Start` and a `Length` in days. The lemmas relate tuple order, positions and days.
- `Buckets`: `get_period_counts`, a `Counter` over period keys turned into a map.
- `Streaks`: `current_streak` and `longest_streak` as loops, each proved against a specification of the streak. The module also holds the two as-written behaviours under "## Findings".
- `Analyse`: `analyse_counters` over the two tables given as sequences of rows.

## Model

| member | source | states |
|---|---|---|
| Periods.CodeOfInjective | db.py:4-6 | two period types with the same code are the same type |
| Periods.PeriodTypeOf | db.py:4-6 | decodes the codes 1, 2, 3 and rejects every other code with "Unknown period type" |
| Periods.PeriodIndex | analyse.py:65-80 | unknown type is an error exactly when the code is not 1, 2, 3; otherwise the key is a valid key of that type whose period contains the timestamp |
| Periods.KeyOf | analyse.py:72-78 | the key of a date for a known type is valid, of that type, and its period contains the date |
| Periods.PeriodIndexUnique | analyse.py:65-80 | a valid key of a type that contains a date is the key `period_index` returns for it |
| Periods.KeyOfMonotone | analyse.py:65-80 | a later date never falls in an earlier period |
| Calendar.IsoCalendar | analyse.py:76 | the ISO year, week and weekday of a date: the date lies in that ISO year, the week is within the year's 52 or 53 weeks, and the date is that weekday of that week after the year's first Monday |
| Calendar.IsoYearLength | analyse.py:93-96 | an ISO year has 52 or 53 weeks, the gap between its first Monday and the next year's |
| Calendar.PrevDay | analyse.py:87 | `datetime - timedelta(days=1)`: a valid date whose ordinal is one less |
| Calendar.NextDay | test_project.py:100-101 | the day step of `next_period`: a valid date whose ordinal is one more |
| Calendar.DateOrderIsOrdinalOrder | analyse.py:144 | tuple order on (year, month, day) is chronological order |
| Periods.Dec28InLastWeek | analyse.py:96 | 28 December lies in the last ISO week of its own year, so its week number is the year's week count |
| Periods.StrptimeIsoMondayIsMondayOf | analyse.py:99 | `strptime("%G-W%V-%u")` with weekday 1 gives the Monday of that ISO week |
| Periods.PreviousWeek | analyse.py:89-100 | the week before a valid ISO week is a valid week whose Monday is seven days earlier, across year ends too |
| Periods.PreviousPeriod | analyse.py:82-108 | the previous period is valid, of the same type, one position earlier, and ends on the day before the given period starts |
| Periods.NextPeriod | test_project.py:100-112 | the next period is valid, of the same type, one position later, and starts on the day after the given period ends |
| Periods.NextUndoesPrevious | test_project.py:100-106 | `next_period(previous_period(k)) == k` for every valid key |
| Periods.PreviousUndoesNext | test_project.py:100-112 | `previous_period(next_period(k)) == k` for every valid key |
| Periods.KeyLess | analyse.py:144 | tuple comparison only ever orders keys of one kind, and never a key before itself |
| Periods.KeyOrder | analyse.py:144 | on keys of one type, tuple order is order on the period line, and equal positions mean equal keys |
| Periods.PosInjective | analyse.py:154 | two keys of one type at the same position are the same key |
| Periods.EarlierEndsFirst | analyse.py:82-108 | a key earlier on the line ends before a later one starts |
| Periods.NavigationExamples | test_project.py:95-112 | the keys of 17 July 2025 (day, ISO week 29, month), their previous and next periods, and the error for an unknown type |
| Buckets.PeriodKeys | analyse.py:115 | one key per timestamp, in order: each a valid key of the type whose period contains that timestamp |
| Buckets.Tally | analyse.py:116 | `Counter`: the keys of the map are the keys tallied, and each count is that key's multiplicity, at least 1 |
| Buckets.TotalOfTally | analyse.py:116 | the counts of a tally add up to the number of keys tallied |
| Buckets.GetPeriodCounts | analyse.py:110-116 | empty input gives an empty map; otherwise an unknown type is an error; otherwise each period key maps to the number of timestamps in it, and the counts sum to the number of timestamps |
| Buckets.CountsKeysValid | analyse.py:110-116 | every bucket key is a valid key of the requested type |
| Buckets.CountsIgnoreOrder | analyse.py:110-116 | the buckets depend only on the multiset of timestamps, not on the order the rows arrive in |
| Buckets.PeriodKeysRespectMultiset | analyse.py:115 | permuting the timestamps permutes their keys |
| Buckets.CountNotAfter | analyse.py:110-116 | a timestamp not after now puts its period among the buckets, at or before the period holding now |
| Streaks.Back | analyse.py:130 | stepping back `i` periods lands `i` positions earlier on the same period line |
| Streaks.BackThenNext | test_project.py:100-106 | one `next_period` after stepping back `i + 1` periods is stepping back `i` |
| Streaks.CurrentStreakUnique | analyse.py:118-134 | the current streak is determined by the buckets, now and the requirement |
| Streaks.CurrentWalkIsStreak | analyse.py:123-134 | whenever the source's backward loop stops, the count it returns is a current streak in the sense of `IsCurrentStreak` |
| Streaks.CurrentStreakStep | analyse.py:128-130 | a good period followed by a streak of `n` behind it is a streak of `n + 1` |
| Streaks.CurrentStreak | analyse.py:118-134 | an unknown type is an error; otherwise the result `n` is the current streak: the `n` periods ending with now's period each have at least `required` events, and the period before them has fewer |
| Streaks.Timeline | analyse.py:145-158 | the gap-free ascending list of `n` keys ending at `end`: each is valid, of `end`'s type, at its position |
| Streaks.TimelineSteps | analyse.py:150-158 | consecutive timeline keys are `next_period` of each other, and the last is `end` |
| Streaks.TrailingRun | analyse.py:160-167 | the final run of good periods is all good and is preceded by a bad period or the start |
| Streaks.LongestRunAchieved | analyse.py:160-169 | some stretch of the flags of exactly the longest-run length is all good |
| Streaks.LongestRunMaximal | analyse.py:160-169 | every all-good stretch is at most the longest run |
| Streaks.NoMeetNoRun | analyse.py:160-169 | with no good period the longest run is 0 |
| Streaks.EarliestKey | analyse.py:144-147 | `sorted(keys)[0]`: a bucket key of the type that no other key precedes in tuple order, and the earliest on the line |
| Streaks.WalkBack | analyse.py:150-158 | walking back from now's period to the earliest key gives the keys now, now-1, ..., earliest, ending at the earliest |
| Streaks.LongestRunIn | analyse.py:160-169 | the `max_run`/`run` loop computes the longest run of good periods in the key list |
| Streaks.LongestStreak | analyse.py:136-169 | no buckets gives 0; otherwise an earliest key exists, it is not after now's period, and the result is the longest run of good periods on the gap-free timeline from it to now's period |
| Streaks.LongestFrom | analyse.py:148-169 | from a given earliest key not after now's period, the result is the longest run of good periods on the timeline from that key to now's period |
| Streaks.EarliestNotAfter | analyse.py:144-147 | when some bucket is not after now's period, the earliest bucket is not either |
| Streaks.CurrentAtMostLongest | analyse.py:118-169 | the current streak is never longer than the longest streak over the timeline up to now |
| Streaks.BackWithinMonth | analyse.py:86-88 | stepping back `i` days inside one month only lowers the day number |
| Streaks.CurrentStreakExample | test_project.py:114-123 | on the test's buckets with one event required, the current streak is 5 at 17 July 2025 and 2 at 21 July 2025 |
| Streaks.LongestStreakExample | test_project.py:114-127 | on the test's buckets with now 21 July 2025, the timeline runs 9 days from 13 July, and the longest streak is 5 with one event required and 0 with two |
| Streaks.ExampleRun | test_project.py:124-125 | five good days, two bad, two good: the longest run is 5 |
| Streaks.WalkAsWritten | analyse.py:150-156 | the source's walk from the earliest key: whenever it finishes, its last key is `end` |
| Streaks.WalkAsWrittenNeverArrives | analyse.py:150-156 | starting before `end` and stepping backwards, the source's walk never reaches `end` |
| Streaks.WalkAsWrittenExample | analyse.py:150-156 | with the test's buckets and now 21 July 2025 the source's walk never ends |
| Streaks.CurrentWalkNeverStops | analyse.py:127-132 | with `required <= 0` every period qualifies, so the source's loop never breaks |
| Analyse.UnitName | analyse.py:5-36 | `UNIT_NAMES.get(k, "?")` gives "?" exactly for the codes that are not a period type |
| Analyse.UnitNamesDistinct | analyse.py:5-9 | the three unit names are distinct, and no other code maps to one of them |
| Analyse.EventsOf | db.py:86-89 | the events of a habit are exactly the table's events with that counter name, with their multiplicity |
| Analyse.FindHabit | analyse.py:43-46 | no result exactly when no habit has the name; otherwise a habit of the table with that name |
| Analyse.NamesWith | analyse.py:33-35 | the names of a group all come from rows of that period type |
| Analyse.NamesWithAppend | analyse.py:34-35 | `append` on a group adds the name to its own type's group only |
| Analyse.NamesWithPartition | analyse.py:30-36 | with known period types, the three groups together hold every habit name exactly once |
| Analyse.NamesWithAbsent | analyse.py:33-35 | a type no row has gets no names |
| Analyse.FirstSeen | analyse.py:33-36 | the key order of the `groups` dictionary: each period type that occurs, once |
| Analyse.FirstSeenOrder | analyse.py:33-36 | a type earlier in that order has a row before every row of a later type |
| Analyse.GroupRows | analyse.py:33-35 | `setdefault(...).append(...)`: the types in first-seen order, and one group per type holding the names of that type's rows in row order |
| Analyse.Relabel | analyse.py:36 | the output's labels are the unit names of the types present, and each label holds the group of the last type in order with that name, as later keys overwrite earlier ones in a dict comprehension |
| Analyse.GroupByPeriodType | analyse.py:30-36 | each unit name present maps to the names of the habits of that type in row order; "?" maps to the group of the unknown type whose first row comes last |
| Analyse.CurrentOf | analyse.py:57-58 | a known type answers the current streak of the buckets; an unknown type is an error |
| Analyse.LongestOf | analyse.py:59-60 | the longest streak of the buckets: 0 for none, otherwise the longest run from the earliest key to now's period |
| Analyse.HabitStreak | analyse.py:47-62 | for "current" and "longest", the bucket map of the habit's timestamps and the streak of that kind; any other streak type is an error |
| Analyse.AnalyseCounters | analyse.py:11-62 | per mode: the event count of the habit, the habit names, the grouping, or the streak; missing counter name, unknown habit and unknown streak type are errors; an unknown mode answers nothing |
| Analyse.EventsOfValid | analyse.py:50-51 | the timestamps of a habit's events are valid dates when the table's are |
| Analyse.EventsOfSomeNotAfter | analyse.py:50-51 | when the habit has an event not after now, one of its timestamps is not after now |
| Analyse.CountIsEventsInPeriod | analyse.py:128-162 | `period_counts.get(idx, 0)` is the number of the habit's timestamps in period `idx`, 0 for an empty period |

## Left out

- Database I/O: cursors, SQL text, commits and the schema. The two tables are sequences of rows in table order.
- SQL result order: `SELECT` has no `ORDER BY`. The model takes the rows in table order. `Buckets.CountsIgnoreOrder` shows that the buckets do not depend on that order.
- The wall clock: `datetime.now()` is the parameter `now`.
- `datetime.fromisoformat` parsing and the time of day: a timestamp is its calendar date, which is all `period_index` reads.
- Python's year range 1..9999 and the four-digit `%G` of `strptime`: years are unbounded integers on the proleptic Gregorian calendar.
- `main.py` (the interactive menu) and `counter.py` (the habit object that writes rows) are not part of this model.
- Tuple collisions between kinds: the source's keys are bare tuples. A weekly `(y, w)` and a monthly `(y, m)` would compare equal, but one habit's buckets all have one type, so they never meet. The model tags each key with its kind.
- `previous_period` with an unknown type raises. The model's keys carry their kind, so the case does not arise. It is reached only through `period_index`, and `Periods.PeriodIndex` models its error.
- Streaks.EarliestKey: `sorted(period_counts.keys())` is modelled only through its first element, the one the source uses.
- Streaks.LongestStreak: requires every bucket to be a valid key of the period type, and some bucket to be at or before now's period (then the earliest is too). When every bucket is after now's period, the source's walk from the earliest key does finish, but the source does not say what streak that case should give, so the model leaves it out. `Buckets.CountNotAfter` discharges the requirement for a habit with an event not after now.
- Streaks.CurrentStreak: requires `required >= 1` for a known period type only. An unknown type raises at once, before the loop, whatever `required` is, and the model answers `UnknownPeriodType` there. For a known type and `period_count <= 0` the source never returns a streak: it loops forever for monthly habits and raises once the dates leave Python's year range for daily and weekly ones (see "## Findings").
- Analyse.AnalyseCounters: the streak requirements apply only once the source has got past its errors: a non-empty counter name, a habit with that name, and a known period type. For a "current" streak the habit's `period_count` must then be at least 1, the only case in which the source returns a streak (see Streaks.CurrentStreak). For a "longest" streak, when any event carries the name, one of those events must not be after now (see Streaks.LongestStreak).
- Analyse.GroupByPeriodType: two unknown period types collide under "?", and the group of the one whose first row comes last is kept. Unknown codes do not arise through the program, because the menu at main.py:53-60 offers only 1, 2 and 3. The database does not rule them out on its own: a `counter` table from an older schema gets `period_type` through `ADD COLUMN` at db.py:27, without the `CHECK` of db.py:21. The `ADD CHECK` at db.py:28 is not a form SQLite's `ALTER TABLE` accepts, and its error is swallowed at db.py:29-30. The model handles unknown codes either way.
- `ValueError` messages are modelled as `Error` constructors, without their text.

## Findings

| source | as written | input that shows it | evidently intended | confidence | as-written member | corrected member |
|---|---|---|---|---|---|---|
| analyse.py:150-156 | the gap-filling walk starts at the earliest key and steps with `previous_period` until it meets now's period; when the earliest key is before now's period the walk moves away from now, never reaches now's period and never returns a streak (it loops, or raises once the dates leave Python's year range for days and weeks) | the test's buckets (13-17, 20 and 21 July 2025) with now 21 July 2025: the walk goes 13 July, 12 July, 11 July, ... | walk from now's period back to the earliest key, then reverse, giving the gap-free ascending timeline | not executed | Streaks.WalkAsWrittenNeverArrives | Streaks.LongestStreak |
| analyse.py:127-132 with main.py:68-70 | `period_counts.get(idx, 0) >= required` always holds when `required <= 0`, so the loop never breaks and never returns a streak (it loops for monthly habits, or raises once the dates leave Python's year range for daily and weekly ones); main.py stores any integer the user types as `period_count` | a habit with `period_count` 0 and mode "streak", type "current" | a period requirement of at least 1, so that an empty period ends the streak | not executed | Streaks.CurrentWalkNeverStops | Streaks.CurrentStreak |
