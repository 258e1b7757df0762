/**
 * Bucketing (analyse.py `get_period_counts`): event dates become a map from
 * period key to the number of events in that period, as `dict(Counter(...))`.
 */
module Buckets {
  import opened Outcomes
  import opened Calendar
  import opened Periods

  predicate AllValid(timestamps: seq<Date>) {
    forall i :: 0 <= i < |timestamps| ==> ValidDate(timestamps[i])
  }

  /** `[period_index(ts, t) for ts in timestamps]` for a known period type. */
  function PeriodKeys(timestamps: seq<Date>, t: PeriodType): (ks: seq<Key>)
    requires AllValid(timestamps)
    ensures |ks| == |timestamps|
    ensures forall i :: 0 <= i < |ks| ==> KeyValid(ks[i]) && KindOf(ks[i]) == t && Contains(ks[i], timestamps[i])
  {
    seq(|timestamps|, i requires 0 <= i < |timestamps| => KeyOf(timestamps[i], t))
  }

  /**
   * `Counter(idxs)`: each key with the number of times it occurs, counted in list
   * order as `Counter` does. The result is the multiset of the keys, as a map.
   */
  function Tally(idxs: seq<Key>): (m: map<Key, nat>)
    ensures forall k :: k in m <==> k in idxs
    ensures forall k :: k in m ==> m[k] == multiset(idxs)[k] && m[k] >= 1
  {
    if idxs == [] then map[]
    else
      var init := idxs[..|idxs| - 1];
      var last := idxs[|idxs| - 1];
      assert idxs == init + [last];
      var m := Tally(init);
      m[last := (if last in m then m[last] else 0) + 1]
  }

  /** Sum of the counts in a map. */
  ghost function Total(m: map<Key, nat>): nat
    decreases m.Keys
  {
    if m == map[] then 0
    else
      var k :| k in m;
      m[k] + Total(m - {k})
  }

  /** The sum does not depend on which key is taken out first. */
  lemma {:induction false} TotalRemove(m: map<Key, nat>, k: Key)
    requires k in m
    ensures Total(m) == m[k] + Total(m - {k})
    decreases m.Keys
  {
    var j :| j in m && Total(m) == m[j] + Total(m - {j});
    if j != k {
      TotalRemove(m - {j}, k);
      TotalRemove(m - {k}, j);
      assert (m - {j}) - {k} == (m - {k}) - {j};
    }
  }

  /** Counting one more occurrence of `k` adds one to the sum. */
  lemma TotalIncrement(m: map<Key, nat>, k: Key)
    ensures Total(m[k := (if k in m then m[k] else 0) + 1]) == Total(m) + 1
  {
    var m' := m[k := (if k in m then m[k] else 0) + 1];
    TotalRemove(m', k);
    if k in m {
      TotalRemove(m, k);
      assert m' - {k} == m - {k};
    } else {
      assert m' - {k} == m;
    }
  }

  /** The counts of a tally add up to the number of keys tallied. */
  lemma {:induction false} TotalOfTally(idxs: seq<Key>)
    ensures Total(Tally(idxs)) == |idxs|
  {
    if idxs != [] {
      var init := idxs[..|idxs| - 1];
      var last := idxs[|idxs| - 1];
      var m := Tally(init);
      assert Tally(idxs) == m[last := (if last in m then m[last] else 0) + 1];
      hide Tally, Total;
      TotalOfTally(init);
      TotalIncrement(m, last);
    }
  }

  /**
   * `get_period_counts`: the map from each period key to the number of dates in that
   * period. An unknown period type is an error, except on an empty list, where
   * `period_index` is never called.
   */
  function GetPeriodCounts(timestamps: seq<Date>, periodType: int): (r: Result<map<Key, nat>>)
    requires AllValid(timestamps)
    ensures r.Err? <==> timestamps != [] && PeriodTypeOf(periodType).Err?
    ensures r.Err? ==> r.error == UnknownPeriodType
    ensures r.Ok? && timestamps == [] ==> r.value == map[]
    ensures r.Ok? && timestamps != [] ==>
      var ks := PeriodKeys(timestamps, PeriodTypeOf(periodType).value);
      (forall k :: k in r.value <==> k in ks) &&
      (forall k :: k in r.value ==> r.value[k] == multiset(ks)[k] >= 1)
    ensures r.Ok? ==> Total(r.value) == |timestamps|
  {
    if timestamps == [] then Ok(map[])
    else
      match PeriodTypeOf(periodType)
      case Err(e) => Err(e)
      case Ok(t) =>
        TotalOfTally(PeriodKeys(timestamps, t));
        Ok(Tally(PeriodKeys(timestamps, t)))
  }

  /** Every key in a bucket map made for a known period type is a valid key of that type. */
  lemma CountsKeysValid(timestamps: seq<Date>, t: PeriodType)
    requires AllValid(timestamps)
    ensures GetPeriodCounts(timestamps, CodeOf(t)).Ok?
    ensures forall k :: k in GetPeriodCounts(timestamps, CodeOf(t)).value ==> KeyValid(k) && KindOf(k) == t
  {
    hide KeyOf, Pos, PreviousPeriod, NextPeriod, Tally, Total;
    var ks := PeriodKeys(timestamps, t);
    assert PeriodTypeOf(CodeOf(t)) == Ok(t);
    forall k | k in GetPeriodCounts(timestamps, CodeOf(t)).value
      ensures KeyValid(k) && KindOf(k) == t
    {
      var i :| 0 <= i < |ks| && ks[i] == k;
    }
  }

  lemma PeriodKeysAppend(u: seq<Date>, v: seq<Date>, t: PeriodType)
    requires AllValid(u) && AllValid(v)
    ensures AllValid(u + v)
    ensures PeriodKeys(u + v, t) == PeriodKeys(u, t) + PeriodKeys(v, t)
  {
    hide KeyOf, ValidDate;
    assert AllValid(u + v) by {
      forall i | 0 <= i < |u + v| ensures ValidDate((u + v)[i]) {
        if i >= |u| { assert (u + v)[i] == v[i - |u|]; }
      }
    }
  }

  /** Taking out the element at `j` takes it out of the multiset. */
  lemma RemoveAt<T>(b: seq<T>, j: int)
    requires 0 <= j < |b|
    ensures b == b[..j] + [b[j]] + b[j + 1..]
    ensures multiset(b) == multiset(b[..j] + b[j + 1..]) + multiset{b[j]}
  {
    assert b == b[..j] + [b[j]] + b[j + 1..];
  }

  lemma Cancel<T>(m1: multiset<T>, m2: multiset<T>, x: T)
    requires m1 + multiset{x} == m2 + multiset{x}
    ensures m1 == m2
  {
    assert m1 == (m1 + multiset{x}) - multiset{x};
  }

  /** The last element of `a` occurs somewhere in its permutation `b`; without them the rest are permutations. */
  lemma MatchLast<T>(a: seq<T>, b: seq<T>) returns (j: int)
    requires a != [] && multiset(a) == multiset(b)
    ensures 0 <= j < |b| && b[j] == a[|a| - 1]
    ensures a == a[..|a| - 1] + [a[|a| - 1]]
    ensures b == b[..j] + [b[j]] + b[j + 1..]
    ensures multiset(a[..|a| - 1]) == multiset(b[..j] + b[j + 1..])
  {
    var n := |a| - 1;
    assert a[n] in multiset(b);
    j :| 0 <= j < |b| && b[j] == a[n];
    RemoveAt(a, n);
    RemoveAt(b, j);
    assert a[..n] + a[n + 1..] == a[..n];
    Cancel(multiset(a[..n]), multiset(b[..j] + b[j + 1..]), a[n]);
  }

  lemma AllValidParts(b: seq<Date>, j: int)
    requires AllValid(b) && 0 <= j < |b|
    ensures AllValid(b[..j]) && AllValid([b[j]]) && AllValid(b[j + 1..])
  {
    assert forall i :: 0 <= i < j ==> b[..j][i] == b[i];
    var rest := b[j + 1..];
    assert forall i :: 0 <= i < |rest| ==> rest[i] == b[j + 1 + i];
  }

  /** Moving one element elsewhere in a sequence keeps its multiset. */
  lemma MoveOne(ka: seq<Key>, kb1: seq<Key>, kb2: seq<Key>, kx: seq<Key>)
    requires multiset(ka) == multiset(kb1 + kb2)
    ensures multiset(ka + kx) == multiset(kb1 + kx + kb2)
  {
  }

  /** Reordering the dates reorders their keys the same way. */
  lemma {:induction false} PeriodKeysRespectMultiset(a: seq<Date>, b: seq<Date>, t: PeriodType)
    requires AllValid(a) && AllValid(b) && multiset(a) == multiset(b)
    ensures multiset(PeriodKeys(a, t)) == multiset(PeriodKeys(b, t))
    decreases |a|
  {
    if a == [] {
      assert |b| == |multiset(b)| == 0;
    } else {
      var n := |a| - 1;
      var j := MatchLast(a, b);
      var a', x, b1, b2 := a[..n], [a[n]], b[..j], b[j + 1..];
      AllValidParts(a, n);
      AllValidParts(b, j);
      PeriodKeysAppend(b1, b2, t);
      PeriodKeysRespectMultiset(a', b1 + b2, t);
      PeriodKeysAppend(a', x, t);
      PeriodKeysAppend(b1, x, t);
      PeriodKeysAppend(b1 + x, b2, t);
      MoveOne(PeriodKeys(a', t), PeriodKeys(b1, t), PeriodKeys(b2, t), PeriodKeys(x, t));
    }
  }

  /** `get_period_counts` does not depend on the order of its input. */
  lemma CountsIgnoreOrder(a: seq<Date>, b: seq<Date>, periodType: int)
    requires AllValid(a) && AllValid(b) && multiset(a) == multiset(b)
    ensures GetPeriodCounts(a, periodType) == GetPeriodCounts(b, periodType)
  {
    if a == [] {
      assert |b| == |multiset(b)| == 0;
    } else {
      assert b != [] by { assert |b| == |multiset(a)| == |a|; }
      match PeriodTypeOf(periodType)
      case Err(_) =>
      case Ok(t) =>
        PeriodKeysRespectMultiset(a, b, t);
        TallyDependsOnMultiset(PeriodKeys(a, t), PeriodKeys(b, t));
    }
  }

  /** Two key lists with the same multiset tally to the same map. */
  lemma TallyDependsOnMultiset(ka: seq<Key>, kb: seq<Key>)
    requires multiset(ka) == multiset(kb)
    ensures Tally(ka) == Tally(kb)
  {
    var ma, mb := Tally(ka), Tally(kb);
    assert forall k :: k in ka <==> k in multiset(ka);
    assert forall k :: k in kb <==> k in multiset(kb);
    assert ma.Keys == mb.Keys;
  }

  /** A date not after `now` puts its period among the buckets, at or before the period holding `now`. */
  lemma CountNotAfter(timestamps: seq<Date>, t: PeriodType, now: Date, i: int)
    requires AllValid(timestamps) && ValidDate(now) && 0 <= i < |timestamps|
    requires Ordinal(timestamps[i]) <= Ordinal(now)
    ensures GetPeriodCounts(timestamps, CodeOf(t)).Ok?
    ensures KeyOf(timestamps[i], t) in GetPeriodCounts(timestamps, CodeOf(t)).value
    ensures Pos(KeyOf(timestamps[i], t)) <= Pos(KeyOf(now, t))
  {
    hide Pos, PreviousPeriod, NextPeriod, Tally, Total;
    assert PeriodTypeOf(CodeOf(t)) == Ok(t);
    assert PeriodKeys(timestamps, t)[i] == KeyOf(timestamps[i], t);
    KeyOfMonotone(timestamps[i], now, t);
  }

}
