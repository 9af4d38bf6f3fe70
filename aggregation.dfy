/** `aggregateData`: the resampler. It drops samples whose timestamp does not
    parse (with `parseISODate`, passed as `parse` to the specification
    functions) or lies after "now"; for a one-day window with fewer than 500
    surviving samples it passes them through one for one; otherwise it
    averages the positive values of fixed-width buckets (one hour for
    windows up to seven days, two hours beyond) and emits one point for
    every bucket of the whole window, null where a bucket has no valid
    value. "Now" is a parameter instead of a read of the clock. */
module Aggregation {
  import opened Base
  import opened TimeRanges
  import opened Sorting
  import DateParsing

  /** A raw row reduced to the two fields the caller names: the timestamp
      cell and the numeric value (None when it is missing or not a number). */
  datatype Sample = Sample(time: string, value: Option<int>)

  /** A sample that passed the time filter, with the instant it parsed to. */
  datatype Reading = Reading(time: int, value: Option<int>)

  /** An output row: the instant of its timestamp cell, its value (None is
      the source's null) and the `isAggregated` flag of a bucket row. */
  datatype Point = Point(time: int, value: Option<int>, aggregated: bool)

  /** The accumulator kept per bucket. */
  datatype Group = Group(sum: int, count: int, hasData: bool)

  const HourMs: int := 3_600_000
  const DayMs: int := 24 * HourMs
  /** Below this many surviving samples a one-day window is not bucketed. */
  const PassThroughLimit: int := 500

  /** The filter of a single sample: kept, with its instant, when its
      timestamp parses to an instant no later than now. */
  function Accept(s: Sample, now: int, parse: string -> Option<int>): (r: Option<Reading>)
    ensures r.Some? ==> r.value.time <= now && r.value.value == s.value
  {
    match parse(s.time)
    case None => None
    case Some(t) => if t <= now then Some(Reading(t, s.value)) else None
  }

  /** The rows one sample contributes to the filter's output. */
  function Kept(s: Sample, now: int, parse: string -> Option<int>): seq<Reading>
  {
    match Accept(s, now, parse)
    case Some(rd) => [rd]
    case None => []
  }

  /** `data.filter(...)`: the surviving samples, in input order. */
  function FilterFuture(data: seq<Sample>, now: int, parse: string -> Option<int>): (r: seq<Reading>)
    ensures |r| <= |data|
  {
    if data == [] then []
    else Kept(data[0], now, parse) + FilterFuture(data[1..], now, parse)
  }

  /** No surviving sample lies after now. */
  lemma {:induction false} FilterFutureNotLater(data: seq<Sample>, now: int, parse: string -> Option<int>)
    ensures forall k :: 0 <= k < |FilterFuture(data, now, parse)| ==> FilterFuture(data, now, parse)[k].time <= now
    decreases |data|
  {
    if data != [] {
      FilterFutureNotLater(data[1..], now, parse);
      var head := Kept(data[0], now, parse);
      var tail := FilterFuture(data[1..], now, parse);
      var r := FilterFuture(data, now, parse);
      assert r == head + tail;
      forall k | 0 <= k < |r|
        ensures r[k].time <= now
      {
        if k < |head| {
          var acc := Accept(data[0], now, parse);
          assert acc.Some? && head[k] == acc.value;
          assert r[k] == head[k];
        } else {
          assert r[k] == tail[k - |head|];
        }
      }
    }
  }

  /** `Number(v) > 0 ? Number(v) : null`. */
  function Positive(v: Option<int>): Option<int>
  {
    if v.Some? && v.value > 0 then v else None
  }

  predicate PassThroughMode(range: TimeRange, surviving: int)
  {
    range.Days() <= 1 && surviving < PassThroughLimit
  }

  function StepFor(range: TimeRange): int
  {
    if range.Days() > 7 then 2 * HourMs else HourMs
  }

  function WindowMs(range: TimeRange): int
  {
    range.Days() * 24 * HourMs
  }

  /** `Math.floor(t / step) * step`: the start of the bucket holding t. */
  function BucketOf(t: int, step: int): (b: int)
    requires step > 0
    ensures b <= t < b + step
    ensures b % step == 0
  {
    MultipleFacts(t, step);
    (t / step) * step
  }

  lemma MultipleFacts(t: int, step: int)
    requires step > 0
    ensures (t / step) * step <= t < (t / step) * step + step
    ensures ((t / step) * step) % step == 0
  {
    var q := t / step;
    assert t == step * q + t % step;
    assert q * step == step * q;
    ModOfMultiple(q, step);
  }

  lemma ModOfMultiple(q: int, step: int)
    requires step > 0
    ensures (q * step) % step == 0
  {
    DivUnique(q * step, step, q);
    assert q * step == step * ((q * step) / step) + (q * step) % step;
  }

  /** Whether a reading adds its value to bucket b. */
  predicate Contributes(rd: Reading, start: int, step: int, b: int)
    requires step > 0
  {
    rd.time >= start && BucketOf(rd.time, step) == b && rd.value.Some? && rd.value.value > 0
  }

  /** The values added to bucket b, in arrival order. */
  function BucketValues(rs: seq<Reading>, start: int, step: int, b: int): seq<int>
    requires step > 0
  {
    if rs == [] then []
    else
      var last := rs[|rs| - 1];
      BucketValues(rs[..|rs| - 1], start, step, b)
        + (if Contributes(last, start, step, b) then [last.value.value] else [])
  }

  /** Only positive values reach a bucket. */
  lemma {:induction false} BucketValuesPositive(rs: seq<Reading>, start: int, step: int, b: int)
    requires step > 0
    ensures forall k :: 0 <= k < |BucketValues(rs, start, step, b)| ==> BucketValues(rs, start, step, b)[k] > 0
    decreases |rs|
  {
    if rs != [] {
      var init := BucketValues(rs[..|rs| - 1], start, step, b);
      BucketValuesPositive(rs[..|rs| - 1], start, step, b);
      var last := rs[|rs| - 1];
      var tail := if Contributes(last, start, step, b) then [last.value.value] else [];
      var vs := BucketValues(rs, start, step, b);
      assert vs == init + tail;
      forall k | 0 <= k < |vs|
        ensures vs[k] > 0
      {
        if k < |init| {
          assert vs[k] == init[k];
        } else {
          assert Contributes(last, start, step, b);
          assert vs[k] == tail[k - |init|];
        }
      }
    }
  }

  /** The value a bucket row carries. */
  function BucketMean(rs: seq<Reading>, start: int, step: int, b: int): Option<int>
    requires step > 0
  {
    var vs := BucketValues(rs, start, step, b);
    if |vs| == 0 then None else Some(RoundedMean(vs))
  }

  function GroupOf(vs: seq<int>): Group
  {
    Group(Sum(vs), |vs|, |vs| > 0)
  }

  function PointTime(p: Point): int
  {
    p.time
  }

  /** The value of every bucket, as a function of the bucket's start. */
  function MeanOf(rs: seq<Reading>, start: int, step: int): int -> Option<int>
    requires step > 0
  {
    b => BucketMean(rs, start, step, b)
  }

  /** `n` bucket rows, t0 apart by `step`, in the order the bucket loop
      appends them, each valued by `mean` at its own start. */
  function Series(t0: int, n: nat, step: int, mean: int -> Option<int>): (s: seq<Point>)
    ensures |s| == n
    decreases n
  {
    if n == 0 then []
    else Series(t0, n - 1, step, mean) + [Point(t0 + (n - 1) * step, mean(t0 + (n - 1) * step), true)]
  }

  /** The number of buckets from the one holding `start` to the one holding `now`. */
  function BucketCount(start: int, now: int, step: int): nat
    requires step > 0 && start <= now
  {
    (now - BucketOf(start, step)) / step + 1
  }

  /** One row per bucket from the one holding `start` to the one holding
      `now`, each valued by its bucket's rounded mean. */
  function BucketSeries(rs: seq<Reading>, start: int, now: int, step: int): seq<Point>
    requires step > 0 && start <= now
  {
    Series(BucketOf(start, step), BucketCount(start, now, step), step, MeanOf(rs, start, step))
  }

  /** The pass-through rows of a short window. */
  function PassThrough(rs: seq<Reading>): (r: seq<Point>)
    ensures |r| == |rs|
  {
    if rs == [] then []
    else [PassRow(rs[0])] + PassThrough(rs[1..])
  }

  /** One pass-through row: the reading's instant, its value when positive. */
  function PassRow(rd: Reading): Point
  {
    Point(rd.time, Positive(rd.value), false)
  }

  /** The pass-through rows, one by one. */
  lemma {:induction false} PassThroughAt(rs: seq<Reading>)
    ensures forall k :: 0 <= k < |rs| ==> PassThrough(rs)[k] == PassRow(rs[k])
    decreases |rs|
  {
    if rs != [] {
      PassThroughAt(rs[1..]);
      forall k | 0 <= k < |rs|
        ensures PassThrough(rs)[k] == PassRow(rs[k])
      {
        if k > 0 {
          assert PassThrough(rs)[k] == PassThrough(rs[1..])[k - 1];
          assert rs[1..][k - 1] == rs[k];
        }
      }
    }
  }

  /** What `aggregateData(data, timeField, valueField, range)` returns when
      the clock reads `now`. */
  function Resampled(data: seq<Sample>, range: TimeRange, now: int, parse: string -> Option<int>): seq<Point>
  {
    if |data| == 0 then [] else RowsOf(FilterFuture(data, now, parse), range, now)
  }

  /** The rows built from the surviving readings: passed through in a short
      window, bucketed otherwise. */
  function RowsOf(rs: seq<Reading>, range: TimeRange, now: int): seq<Point>
  {
    if PassThroughMode(range, |rs|) then PassThrough(rs)
    else BucketSeries(rs, now - WindowMs(range), now, StepFor(range))
  }

  /** `aggregateData`, step by step: the accumulating pass over the surviving
      samples, the loop over the buckets of the window and the final sort. */
  method AggregateData(data: seq<Sample>, range: TimeRange, now: int, engine: string -> Option<int>)
    returns (result: seq<Point>)
    ensures |data| == 0 ==> result == []
    ensures result == Resampled(data, range, now, DateParsing.Parser(engine))
  {
    if |data| == 0 {
      return [];
    }
    var parse := DateParsing.Parser(engine);
    var filtered := FilterFuture(data, now, parse);
    var days := range.Days();
    if days <= 1 && |filtered| < PassThroughLimit {
      PassThroughResampled(data, range, now, parse);
      return PassThrough(filtered);
    }
    assert !PassThroughMode(range, |filtered|);
    result := BucketedRows(filtered, range, now);
    BucketedResampled(data, range, now, parse);
  }

  /** The bucketed branch of `aggregateData`: the step and the window start
      of the range, the accumulating pass, the bucket loop and the final
      sort by time. */
  method BucketedRows(filtered: seq<Reading>, range: TimeRange, now: int) returns (result: seq<Point>)
    ensures result == BucketSeries(filtered, now - WindowMs(range), now, StepFor(range))
  {
    var days := range.Days();
    var step := HourMs;
    if days > 1 && days <= 7 {
      step := HourMs;
    } else if days > 7 {
      step := 2 * HourMs;
    }
    var timeRangeMs := days * 24 * HourMs;
    var startTime := now - timeRangeMs;
    assert step == StepFor(range) && timeRangeMs == WindowMs(range);
    var rows := BucketRows(filtered, startTime, now, step);
    result := SortBy(rows, PointTime);
    FinalSortKeepsOrder(filtered, startTime, now, step);
    SameWindowSameSeries(filtered, startTime, now - WindowMs(range), now, step, StepFor(range));
  }

  /** Rewrites the window of BucketedRows (`startTime`, `step`) into the
      terms of RowsOf (`now - WindowMs(range)`, `StepFor(range)`); a separate
      lemma keeps that rewriting out of BucketedRows' own, larger proof. */
  lemma SameWindowSameSeries(rs: seq<Reading>, start: int, start': int, now: int, step: int, step': int)
    requires start == start' && step == step' && step > 0 && start <= now
    ensures BucketSeries(rs, start, now, step) == BucketSeries(rs, start', now, step')
  {
  }

  /** The accumulating pass and the bucket loop together. */
  method BucketRows(filtered: seq<Reading>, startTime: int, now: int, step: int)
    returns (rows: seq<Point>)
    requires step > 0 && startTime <= now
    ensures rows == BucketSeries(filtered, startTime, now, step)
  {
    var groups := GroupSamples(filtered, startTime, step);
    rows := EmitBuckets(groups, startTime, now, step);
    GroupMeansAgree(groups, filtered, startTime, step);
    SeriesSameMeans(BucketOf(startTime, step), BucketCount(startTime, now, step), step,
                    GroupMeans(groups), MeanOf(filtered, startTime, step));
  }

  /** The pass-through branch of `Resampled`, unfolded. */
  lemma PassThroughResampled(data: seq<Sample>, range: TimeRange, now: int, parse: string -> Option<int>)
    requires |data| > 0
    requires PassThroughMode(range, |FilterFuture(data, now, parse)|)
    ensures Resampled(data, range, now, parse) == PassThrough(FilterFuture(data, now, parse))
  {
  }

  /** The bucketed branch of `Resampled`, unfolded. */
  lemma BucketedResampled(data: seq<Sample>, range: TimeRange, now: int, parse: string -> Option<int>)
    requires |data| > 0
    requires !PassThroughMode(range, |FilterFuture(data, now, parse)|)
    ensures Resampled(data, range, now, parse)
         == BucketSeries(FilterFuture(data, now, parse), now - WindowMs(range), now, StepFor(range))
  {
  }

  /** The `forEach` pass: one accumulator per bucket that received an
      in-window sample, summing and counting its positive values. */
  method GroupSamples(filtered: seq<Reading>, startTime: int, step: int)
    returns (groups: map<int, Group>)
    requires step > 0
    ensures forall b :: b in groups ==> groups[b] == GroupOf(BucketValues(filtered, startTime, step, b))
    ensures forall b :: b !in groups ==> BucketValues(filtered, startTime, step, b) == []
  {
    groups := map[];
    var i := 0;
    while i < |filtered|
      invariant 0 <= i <= |filtered|
      invariant forall b :: b in groups ==> groups[b] == GroupOf(BucketValues(filtered[..i], startTime, step, b))
      invariant forall b :: b !in groups ==> BucketValues(filtered[..i], startTime, step, b) == []
    {
      var item := filtered[i];
      ghost var before := groups;
      if item.time >= startTime {
        var bucket := (item.time / step) * step;
        if bucket !in groups {
          groups := groups[bucket := Group(0, 0, false)];
        }
        var val := item.value;
        if val.Some? && val.value > 0 {
          var g := groups[bucket];
          groups := groups[bucket := Group(g.sum + val.value, g.count + 1, true)];
        }
      }
      assert filtered[..i + 1] == filtered[..i] + [item];
      forall b
        ensures b in groups ==> groups[b] == GroupOf(BucketValues(filtered[..i + 1], startTime, step, b))
        ensures b !in groups ==> BucketValues(filtered[..i + 1], startTime, step, b) == []
      {
        BucketValuesStep(filtered[..i], item, startTime, step, b);
        if item.time >= startTime && b == BucketOf(item.time, step) {
          if item.value.Some? && item.value.value > 0 {
            SumAppend(BucketValues(filtered[..i], startTime, step, b), item.value.value);
          }
        } else {
          assert !Contributes(item, startTime, step, b);
          assert (b in groups <==> b in before) && (b in groups ==> groups[b] == before[b]);
        }
      }
      i := i + 1;
    }
    assert filtered[..i] == filtered;
  }

  /** `groups[bucket]` read back as a row value: the rounded mean of the
      accumulator, null without an accumulator or with a count of zero. */
  function GroupMean(groups: map<int, Group>, b: int): Option<int>
  {
    if b in groups && groups[b].count > 0 then Some(MathRound(groups[b].sum as real / groups[b].count as real))
    else None
  }

  function GroupMeans(groups: map<int, Group>): int -> Option<int>
  {
    b => GroupMean(groups, b)
  }

  /** The `for (t ...; t <= now; t += step)` loop: a row for every bucket
      from the one holding `startTime` to the one holding `now`, valued from
      its accumulator when it has one. */
  method EmitBuckets(groups: map<int, Group>, startTime: int, now: int, step: int)
    returns (result: seq<Point>)
    requires step > 0 && startTime <= now
    ensures result == Series(BucketOf(startTime, step), BucketCount(startTime, now, step), step, GroupMeans(groups))
  {
    result := [];
    var t := (startTime / step) * step;
    ghost var t0 := t;
    ghost var mean := GroupMeans(groups);
    while t <= now
      invariant t == t0 + |result| * step
      invariant t0 == BucketOf(startTime, step) && t <= now + step
      invariant forall k :: 0 <= k < |result| ==> result[k] == Point(t0 + k * step, mean(t0 + k * step), true)
      decreases now - t
    {
      var bucket := t;
      var value: Option<int> := None;
      if bucket in groups {
        var g := groups[bucket];
        value := if g.count > 0 then Some(MathRound(g.sum as real / g.count as real)) else None;
      }
      assert value == mean(bucket);
      MulSucc(|result|, step);
      result := result + [Point(bucket, value, true)];
      t := t + step;
    }
    EmittedRows(result, t0, now, step, mean);
  }

  /** Rows emitted one bucket apart from t0 until the first bucket past
      `now` are the series over those buckets. */
  lemma EmittedRows(rows: seq<Point>, t0: int, now: int, step: int, mean: int -> Option<int>)
    requires step > 0 && t0 <= now
    requires now < t0 + |rows| * step <= now + step
    requires forall k :: 0 <= k < |rows| ==> rows[k] == Point(t0 + k * step, mean(t0 + k * step), true)
    ensures rows == Series(t0, (now - t0) / step + 1, step, mean)
  {
    MulSucc(|rows| - 1, step);
    RowCount(t0, now, step, |rows|);
    SeriesAt(t0, |rows|, step, mean);
  }

  /** The accumulators of the `forEach` pass value every bucket with the
      rounded mean of the positive in-window values it received, and with
      null when it received none. */
  lemma GroupMeansAgree(groups: map<int, Group>, filtered: seq<Reading>, startTime: int, step: int)
    requires step > 0
    requires forall b :: b in groups ==> groups[b] == GroupOf(BucketValues(filtered, startTime, step, b))
    requires forall b :: b !in groups ==> BucketValues(filtered, startTime, step, b) == []
    ensures forall b :: GroupMeans(groups)(b) == BucketMean(filtered, startTime, step, b)
  {
    forall b
      ensures GroupMeans(groups)(b) == BucketMean(filtered, startTime, step, b)
    {
      if b in groups {
        assert groups[b] == GroupOf(BucketValues(filtered, startTime, step, b));
      }
    }
  }

  lemma BucketValuesStep(rs: seq<Reading>, x: Reading, start: int, step: int, b: int)
    requires step > 0
    ensures !Contributes(x, start, step, b) ==>
      BucketValues(rs + [x], start, step, b) == BucketValues(rs, start, step, b)
    ensures Contributes(x, start, step, b) ==>
      BucketValues(rs + [x], start, step, b) == BucketValues(rs, start, step, b) + [x.value.value]
  {
    assert (rs + [x])[..|rs|] == rs;
    var old_ := BucketValues(rs, start, step, b);
    assert old_ + [] == old_;
  }

  /** The number of rows the bucket loop emits. */
  lemma RowCount(t0: int, now: int, step: int, n: int)
    requires step > 0 && n >= 1
    requires t0 + (n - 1) * step <= now < t0 + n * step
    ensures (now - t0) / step + 1 == n
  {
    DivUnique(now - t0, step, n - 1);
  }

  /** Integer division by a positive divisor, pinned by its bounds. */
  lemma DivUnique(x: int, d: int, q: int)
    requires d > 0
    requires q * d <= x < q * d + d
    ensures x / d == q
  {
    var q' := x / d;
    var r := x % d;
    assert x == q' * d + r && 0 <= r < d;
    if q' < q {
      MulLe(q' + 1, q, d);
    } else if q' > q {
      MulLe(q + 1, q', d);
    }
  }

  lemma MulSucc(n: int, d: int)
    ensures (n + 1) * d == n * d + d
  {
  }

  lemma MulLe(a: int, b: int, d: int)
    requires a <= b && d > 0
    ensures a * d <= b * d
  {
  }

  lemma SumAppend(vs: seq<int>, v: int)
    ensures Sum(vs + [v]) == Sum(vs) + v
  {
    assert (vs + [v])[..|vs|] == vs;
  }

  // ---------------------------------------------------------------------
  // Window arithmetic

  /** Integer division by a positive divisor is monotone. */
  lemma DivMonotone(a: int, b: int, d: int)
    requires a <= b && d > 0
    ensures a / d <= b / d
  {
    assert a == (a / d) * d + a % d;
    assert b == (b / d) * d + b % d;
    assert (a / d) * d < (b / d + 1) * d;
    MulStrict(a / d, b / d + 1, d);
  }

  lemma MulStrict(x: int, y: int, d: int)
    requires d > 0 && x * d < y * d
    ensures x < y
  {
  }

  /** The window of every range is a whole number of buckets. */
  lemma WindowIsWholeBuckets(range: TimeRange)
    ensures StepFor(range) > 0
    ensures WindowMs(range) == (WindowMs(range) / StepFor(range)) * StepFor(range)
  {
  }

  /** The rows of a series, one by one. */
  lemma {:induction false} SeriesAt(t0: int, n: nat, step: int, mean: int -> Option<int>)
    ensures forall k :: 0 <= k < n ==>
      Series(t0, n, step, mean)[k] == Point(t0 + k * step, mean(t0 + k * step), true)
    decreases n
  {
    if n > 0 {
      SeriesAt(t0, n - 1, step, mean);
    }
  }

  /** The times of a series strictly increase. */
  lemma SeriesTimes(t0: int, n: nat, step: int, mean: int -> Option<int>)
    requires step > 0
    ensures var s := Series(t0, n, step, mean);
            forall i, j :: 0 <= i < j < n ==> s[i].time < s[j].time
  {
    var s := Series(t0, n, step, mean);
    SeriesAt(t0, n, step, mean);
    forall i, j | 0 <= i < j < n
      ensures s[i].time < s[j].time
    {
      MulLe(i + 1, j, step);
      MulSucc(i, step);
    }
  }

  /** Two series over the same axis whose means agree are the same. */
  lemma {:induction false} SeriesSameMeans(t0: int, n: nat, step: int, m1: int -> Option<int>, m2: int -> Option<int>)
    requires forall b :: m1(b) == m2(b)
    ensures Series(t0, n, step, m1) == Series(t0, n, step, m2)
    decreases n
  {
    if n > 0 {
      SeriesSameMeans(t0, n - 1, step, m1, m2);
    }
  }

  /** A time axis of bucket rows for the window [start, now]: non-empty,
      aggregated rows at consecutive multiples of the step, strictly
      increasing, the first holding `start` and the last holding `now`. */
  predicate IsAxis(s: seq<Point>, start: int, now: int, step: int)
    requires step > 0
  {
    && |s| >= 1
    && (forall k :: 0 <= k < |s| ==> s[k].time % step == 0 && s[k].aggregated)
    && (forall k :: 0 <= k < |s| ==> s[k].time == s[0].time + k * step)
    && (forall i, j :: 0 <= i < j < |s| ==> s[i].time < s[j].time)
    && s[0].time <= start < s[0].time + step
    && s[|s| - 1].time <= now < s[|s| - 1].time + step
  }

  /** The time axis of the bucket loop: consecutive multiples of the step
      from the bucket holding `start` to the one holding `now`. */
  lemma BucketAxis(start: int, now: int, step: int, mean: int -> Option<int>)
    requires step > 0 && start <= now
    ensures var s := Series(BucketOf(start, step), BucketCount(start, now, step), step, mean);
            && IsAxis(s, start, now, step)
            && (forall k :: 0 <= k < |s| ==> s[k].time == BucketOf(start, step) + k * step)
  {
    var t0 := BucketOf(start, step);
    var n := BucketCount(start, now, step);
    var s := Series(t0, n, step, mean);
    SeriesAt(t0, n, step, mean);
    SeriesTimes(t0, n, step, mean);
    var q0 := start / step;
    assert t0 == q0 * step;
    forall k | 0 <= k < |s|
      ensures s[k].time % step == 0
    {
      assert q0 * step + k * step == (q0 + k) * step;
      ModOfMultiple(q0 + k, step);
    }
    MultipleFacts(now - t0, step);
    assert s[|s| - 1].time == t0 + ((now - t0) / step) * step;
  }

  /** Each bucket row carries the mean of its own bucket. */
  lemma BucketSeriesValues(rs: seq<Reading>, start: int, now: int, step: int)
    requires step > 0 && start <= now
    ensures var s := BucketSeries(rs, start, now, step);
            forall k :: 0 <= k < |s| ==> s[k].value == BucketMean(rs, start, step, s[k].time)
  {
    var t0 := BucketOf(start, step);
    var n := BucketCount(start, now, step);
    var mean := MeanOf(rs, start, step);
    SeriesAt(t0, n, step, mean);
    forall k | 0 <= k < n
      ensures Series(t0, n, step, mean)[k].value == BucketMean(rs, start, step, t0 + k * step)
    {
      assert mean(t0 + k * step) == BucketMean(rs, start, step, t0 + k * step);
    }
  }

  /** The bucket rows are in time order. */
  lemma BucketSeriesSorted(rs: seq<Reading>, start: int, now: int, step: int)
    requires step > 0 && start <= now
    ensures SortedBy(BucketSeries(rs, start, now, step), PointTime)
  {
    var s := BucketSeries(rs, start, now, step);
    BucketAxis(start, now, step, MeanOf(rs, start, step));
    assert forall i, j :: 0 <= i < j < |s| ==> PointTime(s[i]) <= PointTime(s[j]);
  }

  // ---------------------------------------------------------------------
  // The filter

  lemma {:induction false} FilterAppend(a: seq<Sample>, b: seq<Sample>, now: int, parse: string -> Option<int>)
    ensures FilterFuture(a + b, now, parse) == FilterFuture(a, now, parse) + FilterFuture(b, now, parse)
    decreases |a|
  {
    if a == [] {
      assert a + b == b;
    } else {
      var k := Kept(a[0], now, parse);
      assert (a + b)[0] == a[0] && (a + b)[1..] == a[1..] + b;
      assert FilterFuture(a + b, now, parse) == k + FilterFuture(a[1..] + b, now, parse);
      FilterAppend(a[1..], b, now, parse);
      assert k + (FilterFuture(a[1..], now, parse) + FilterFuture(b, now, parse))
          == (k + FilterFuture(a[1..], now, parse)) + FilterFuture(b, now, parse);
    }
  }

  /** The filter treats every sample on its own. */
  lemma {:induction false} FilterInsert(a: seq<Sample>, s: Sample, b: seq<Sample>, now: int, parse: string -> Option<int>)
    ensures FilterFuture(a + [s] + b, now, parse)
         == FilterFuture(a, now, parse) + Kept(s, now, parse) + FilterFuture(b, now, parse)
    decreases |a|
  {
    if a == [] {
      assert a + [s] + b == [s] + b;
      assert ([s] + b)[1..] == b;
    } else {
      var k := Kept(a[0], now, parse);
      assert (a + [s] + b)[0] == a[0];
      assert (a + [s] + b)[1..] == a[1..] + [s] + b;
      assert FilterFuture(a + [s] + b, now, parse) == k + FilterFuture(a[1..] + [s] + b, now, parse);
      FilterInsert(a[1..], s, b, now, parse);
      var x, ks, y := FilterFuture(a[1..], now, parse), Kept(s, now, parse), FilterFuture(b, now, parse);
      Regroup(k, x, ks, y);
    }
  }

  /** The regrouping of concatenations FilterInsert needs in its inductive
      step, kept small so that step stays cheap to prove. */
  lemma Regroup(k: seq<Reading>, x: seq<Reading>, ks: seq<Reading>, y: seq<Reading>)
    ensures k + (x + ks + y) == (k + x) + ks + y
  {
  }

  /** A sample stamped exactly `now` is kept. */
  lemma FilterKeepsNow(s: Sample, now: int, parse: string -> Option<int>)
    requires parse(s.time) == Some(now)
    ensures FilterFuture([s], now, parse) == [Reading(now, s.value)]
  {
    assert [s][1..] == [];
  }

  /** A sample whose timestamp does not parse, or parses to an instant after
      `now`, changes nothing in either mode (unless it is the only sample: an
      empty input yields no rows at all). */
  lemma RejectedSampleIgnored(a: seq<Sample>, s: Sample, b: seq<Sample>, range: TimeRange,
                              now: int, parse: string -> Option<int>)
    requires |a + b| > 0
    requires parse(s.time).None?
          || parse(s.time).value > now
    ensures Resampled(a + [s] + b, range, now, parse) == Resampled(a + b, range, now, parse)
  {
    FilterInsert(a, s, b, now, parse);
    FilterAppend(a, b, now, parse);
    assert Kept(s, now, parse) == [];
    assert FilterFuture(a + [s] + b, now, parse) == FilterFuture(a + b, now, parse);
  }

  // ---------------------------------------------------------------------
  // Pass-through mode

  /** A short window yields one row per surviving sample, in input order,
      with its own instant (no window cut-off), its value when positive and
      null otherwise. */
  lemma PassThroughRows(data: seq<Sample>, range: TimeRange, now: int, parse: string -> Option<int>)
    requires |data| > 0
    requires PassThroughMode(range, |FilterFuture(data, now, parse)|)
    ensures var rs := FilterFuture(data, now, parse);
            var r := Resampled(data, range, now, parse);
            && |r| == |rs|
            && forall k :: 0 <= k < |r| ==>
                 && r[k].time == rs[k].time && r[k].time <= now && !r[k].aggregated
                 && (rs[k].value.Some? && rs[k].value.value > 0 ==> r[k].value == rs[k].value)
                 && (rs[k].value.None? || rs[k].value.value <= 0 ==> r[k].value.None?)
  {
    PassThroughResampled(data, range, now, parse);
    PassThroughAt(FilterFuture(data, now, parse));
    FilterFutureNotLater(data, now, parse);
  }

  // ---------------------------------------------------------------------
  // Bucketed mode

  /** The final sort of the bucketed rows changes nothing: the bucket loop
      already emits them in time order. */
  lemma FinalSortKeepsOrder(rs: seq<Reading>, start: int, now: int, step: int)
    requires step > 0 && start <= now
    ensures SortBy(BucketSeries(rs, start, now, step), PointTime) == BucketSeries(rs, start, now, step)
  {
    BucketSeriesSorted(rs, start, now, step);
    SortBySorted(BucketSeries(rs, start, now, step), PointTime);
  }

  /** The number of buckets of a whole window, range*86,400,000/step + 1:
      one per hour of the window, or one per two hours beyond seven days,
      plus the partial bucket holding now. */
  lemma WindowBucketCount(range: TimeRange, now: int)
    ensures BucketCount(now - WindowMs(range), now, StepFor(range))
         == range.Days() * (if range.Days() <= 7 then 24 else 12) + 1
  {
    var step := StepFor(range);
    var start := now - WindowMs(range);
    WindowIsWholeBuckets(range);
    var w := WindowMs(range) / step;
    var t0 := BucketOf(start, step);
    assert now - t0 == w * step + (start - t0);
    DivUnique(now - t0, step, w);
  }

  /** The rows `aggregateData` returns in bucketed mode: exactly
      range*86,400,000/step + 1 of them, forming the time axis of the whole
      window with the step of the range. */
  lemma BucketedShape(data: seq<Sample>, range: TimeRange, now: int, parse: string -> Option<int>)
    requires |data| > 0
    requires !PassThroughMode(range, |FilterFuture(data, now, parse)|)
    ensures var r := Resampled(data, range, now, parse);
            && |r| == range.Days() * (if range.Days() <= 7 then 24 else 12) + 1
            && IsAxis(r, now - WindowMs(range), now, StepFor(range))
  {
    BucketedResampled(data, range, now, parse);
    WindowSeriesShape(FilterFuture(data, now, parse), range, now);
  }

  /** The bucket series of a range's window, over any readings. */
  lemma WindowSeriesShape(rs: seq<Reading>, range: TimeRange, now: int)
    ensures var s := BucketSeries(rs, now - WindowMs(range), now, StepFor(range));
            && |s| == range.Days() * (if range.Days() <= 7 then 24 else 12) + 1
            && IsAxis(s, now - WindowMs(range), now, StepFor(range))
  {
    BucketSeriesAxis(rs, now - WindowMs(range), now, StepFor(range));
    WindowBucketCount(range, now);
  }

  /** A bucket series has as many rows as there are buckets in its window
      and they form its axis. */
  lemma BucketSeriesAxis(rs: seq<Reading>, start: int, now: int, step: int)
    requires step > 0 && start <= now
    ensures |BucketSeries(rs, start, now, step)| == BucketCount(start, now, step)
    ensures IsAxis(BucketSeries(rs, start, now, step), start, now, step)
  {
    var mean := MeanOf(rs, start, step);
    BucketAxis(start, now, step, mean);
  }

  /** The values of a bucket are exactly those of its contributing readings. */
  lemma {:induction false} BucketValuesMembers(rs: seq<Reading>, start: int, step: int, b: int)
    requires step > 0
    ensures (BucketValues(rs, start, step, b) == [])
        <==> (forall j :: 0 <= j < |rs| ==> !Contributes(rs[j], start, step, b))
    ensures forall v :: v in BucketValues(rs, start, step, b) <==>
      exists j :: 0 <= j < |rs| && Contributes(rs[j], start, step, b) && rs[j].value.value == v
    decreases |rs|
  {
    if rs != [] {
      var init := rs[..|rs| - 1];
      var last := rs[|rs| - 1];
      BucketValuesMembers(init, start, step, b);
      var vi := BucketValues(init, start, step, b);
      var tail := if Contributes(last, start, step, b) then [last.value.value] else [];
      assert BucketValues(rs, start, step, b) == vi + tail;
      if vi != [] {
        var j :| 0 <= j < |init| && Contributes(init[j], start, step, b);
        assert rs[j] == init[j];
      } else if tail == [] {
        forall j | 0 <= j < |rs|
          ensures !Contributes(rs[j], start, step, b)
        {
          if j < |init| {
            assert rs[j] == init[j];
          }
        }
      }
      forall v
        ensures v in vi + tail <==>
          exists j :: 0 <= j < |rs| && Contributes(rs[j], start, step, b) && rs[j].value.value == v
      {
        if v in vi {
          var j :| 0 <= j < |init| && Contributes(init[j], start, step, b) && init[j].value.value == v;
          assert rs[j] == init[j];
        } else if v in tail {
          assert rs[|rs| - 1] == last;
        }
        if exists j :: 0 <= j < |rs| && Contributes(rs[j], start, step, b) && rs[j].value.value == v {
          var j :| 0 <= j < |rs| && Contributes(rs[j], start, step, b) && rs[j].value.value == v;
          if j < |init| {
            assert init[j] == rs[j];
          }
        }
      }
    }
  }

  /** A bucket's mean: null exactly when no reading contributes to it,
      otherwise the rounded mean of the contributed values, which is positive
      and lies between their minimum and their maximum. */
  lemma BucketMeanCases(rs: seq<Reading>, start: int, step: int, b: int)
    requires step > 0
    ensures var vs := BucketValues(rs, start, step, b);
            var m := BucketMean(rs, start, step, b);
            && (m.None? <==> forall j :: 0 <= j < |rs| ==> !Contributes(rs[j], start, step, b))
            && (m.Some? ==>
                  |vs| > 0 && m.value == RoundedMean(vs)
                  && MinOf(vs) <= m.value <= MaxOf(vs) && m.value > 0)
  {
    BucketValuesMembers(rs, start, step, b);
    BucketValuesPositive(rs, start, step, b);
    var vs := BucketValues(rs, start, step, b);
    if |vs| > 0 {
      RoundedMeanBetween(vs);
      assert MinOf(vs) > 0;
    }
  }

  /** The value of a bucket row: null exactly when no reading contributes
      to its bucket, otherwise the rounded mean of the contributed values,
      which is positive and lies between their minimum and their maximum. */
  lemma BucketedValue(rs: seq<Reading>, start: int, now: int, step: int, k: int)
    requires step > 0 && start <= now
    requires 0 <= k < |BucketSeries(rs, start, now, step)|
    ensures var row := BucketSeries(rs, start, now, step)[k];
            var vs := BucketValues(rs, start, step, row.time);
            && (row.value.None? <==> forall j :: 0 <= j < |rs| ==> !Contributes(rs[j], start, step, row.time))
            && (row.value.Some? ==>
                  |vs| > 0 && row.value.value == RoundedMean(vs)
                  && MinOf(vs) <= row.value.value <= MaxOf(vs) && row.value.value > 0)
  {
    var s := BucketSeries(rs, start, now, step);
    BucketSeriesValues(rs, start, now, step);
    assert s[k].value == BucketMean(rs, start, step, s[k].time);
    BucketMeanCases(rs, start, step, s[k].time);
  }

  lemma {:induction false} BucketValuesAppend(xs: seq<Reading>, ys: seq<Reading>, start: int, step: int, b: int)
    requires step > 0
    ensures BucketValues(xs + ys, start, step, b) == BucketValues(xs, start, step, b) + BucketValues(ys, start, step, b)
    decreases |ys|
  {
    if ys == [] {
      assert xs + ys == xs;
    } else {
      var init := ys[..|ys| - 1];
      BucketValuesAppend(xs, init, start, step, b);
      assert (xs + ys)[..|xs + ys| - 1] == xs + init;
    }
  }

  /** A reading older than the window start adds nothing to any bucket. */
  lemma StaleReadingIgnored(xs: seq<Reading>, rd: Reading, ys: seq<Reading>, start: int, step: int, b: int)
    requires step > 0 && rd.time < start
    ensures BucketMean(xs + [rd] + ys, start, step, b) == BucketMean(xs + ys, start, step, b)
  {
    BucketValuesAppend(xs + [rd], ys, start, step, b);
    BucketValuesAppend(xs, [rd], start, step, b);
    BucketValuesAppend(xs, ys, start, step, b);
    assert [rd][..0] == [];
    assert BucketValues([rd], start, step, b) == [];
    assert BucketValues(xs, start, step, b) + [] == BucketValues(xs, start, step, b);
  }

  /** The bucket series does not see a reading older than the window start. */
  lemma StaleReadingSeries(xs: seq<Reading>, rd: Reading, ys: seq<Reading>, start: int, now: int, step: int)
    requires step > 0 && start <= now && rd.time < start
    ensures BucketSeries(xs + [rd] + ys, start, now, step) == BucketSeries(xs + ys, start, now, step)
  {
    var with := xs + [rd] + ys;
    var without := xs + ys;
    forall t
      ensures MeanOf(with, start, step)(t) == MeanOf(without, start, step)(t)
    {
      StaleReadingIgnored(xs, rd, ys, start, step, t);
    }
    SeriesSameMeans(BucketOf(start, step), BucketCount(start, now, step), step,
                    MeanOf(with, start, step), MeanOf(without, start, step));
  }

  /** A sample older than the window start changes nothing in bucketed mode:
      it only counts towards the 500-sample threshold of a one-day window. */
  lemma StaleSampleIgnored(a: seq<Sample>, s: Sample, b: seq<Sample>, range: TimeRange,
                           now: int, parse: string -> Option<int>)
    requires |a + b| > 0
    requires !PassThroughMode(range, |FilterFuture(a + b, now, parse)|)
    requires parse(s.time).Some?
    requires parse(s.time).value < now - WindowMs(range)
    ensures Resampled(a + [s] + b, range, now, parse) == Resampled(a + b, range, now, parse)
  {
    var fa := FilterFuture(a, now, parse);
    var fb := FilterFuture(b, now, parse);
    AcceptedSampleFiltered(a, s, b, now, parse);
    StaleReadingRows(fa, Reading(parse(s.time).value, s.value), fb, range, now);
  }

  /** The filter output with and without a sample it keeps. */
  lemma AcceptedSampleFiltered(a: seq<Sample>, s: Sample, b: seq<Sample>, now: int, parse: string -> Option<int>)
    requires parse(s.time).Some? && parse(s.time).value <= now
    ensures FilterFuture(a + [s] + b, now, parse)
         == FilterFuture(a, now, parse) + [Reading(parse(s.time).value, s.value)] + FilterFuture(b, now, parse)
    ensures FilterFuture(a + b, now, parse) == FilterFuture(a, now, parse) + FilterFuture(b, now, parse)
  {
    FilterInsert(a, s, b, now, parse);
    FilterAppend(a, b, now, parse);
  }

  /** In bucketed mode the rows do not see a reading older than the window. */
  lemma StaleReadingRows(xs: seq<Reading>, rd: Reading, ys: seq<Reading>, range: TimeRange, now: int)
    requires !PassThroughMode(range, |xs + ys|)
    requires rd.time < now - WindowMs(range)
    ensures RowsOf(xs + [rd] + ys, range, now) == RowsOf(xs + ys, range, now)
  {
    StaleReadingSeries(xs, rd, ys, now - WindowMs(range), now, StepFor(range));
    SameSeriesSameRows(xs + [rd] + ys, xs + ys, range, now);
  }

  /** Two bucketed reading sequences with the same bucket series have the same
      rows. Used by StaleReadingRows, where `with` is `without` plus the stale
      reading: the longer one is then bucketed as well, which is what the
      length requirement records. */
  lemma SameSeriesSameRows(with: seq<Reading>, without: seq<Reading>, range: TimeRange, now: int)
    requires !PassThroughMode(range, |without|) && |with| > |without|
    requires BucketSeries(with, now - WindowMs(range), now, StepFor(range))
          == BucketSeries(without, now - WindowMs(range), now, StepFor(range))
    ensures RowsOf(with, range, now) == RowsOf(without, range, now)
  {
  }

  /** The bucket of a contributing reading has a row, and that row has a value. */
  lemma ReadingInSeries(rs: seq<Reading>, start: int, now: int, step: int, j: int) returns (k: nat)
    requires step > 0 && 0 <= j < |rs|
    requires start <= rs[j].time <= now
    requires rs[j].value.Some? && rs[j].value.value > 0
    ensures k < |BucketSeries(rs, start, now, step)|
    ensures BucketSeries(rs, start, now, step)[k].time == BucketOf(rs[j].time, step)
    ensures BucketSeries(rs, start, now, step)[k].value.Some?
  {
    var rd := rs[j];
    k := BucketIndex(start, now, step, rd.time);
    var s := BucketSeries(rs, start, now, step);
    BucketAxis(start, now, step, MeanOf(rs, start, step));
    BucketSeriesValues(rs, start, now, step);
    assert s[k].time == BucketOf(rd.time, step);
    BucketMeanCases(rs, start, step, s[k].time);
    assert Contributes(rs[j], start, step, s[k].time);
  }

  /** No valid sample is lost: every in-window sample with a positive value
      falls in a bucket of the series, and that bucket's row has a value. */
  lemma ReadingLandsInItsBucket(data: seq<Sample>, range: TimeRange, now: int,
                                parse: string -> Option<int>, j: int) returns (k: nat)
    requires |data| > 0
    requires !PassThroughMode(range, |FilterFuture(data, now, parse)|)
    requires 0 <= j < |FilterFuture(data, now, parse)|
    requires FilterFuture(data, now, parse)[j].time >= now - WindowMs(range)
    requires FilterFuture(data, now, parse)[j].value.Some?
    requires FilterFuture(data, now, parse)[j].value.value > 0
    ensures k < |Resampled(data, range, now, parse)|
    ensures Resampled(data, range, now, parse)[k].time == BucketOf(FilterFuture(data, now, parse)[j].time, StepFor(range))
    ensures Resampled(data, range, now, parse)[k].value.Some?
  {
    var rs := FilterFuture(data, now, parse);
    FilterFutureNotLaterAt(data, now, parse, j);
    k := ReadingInSeries(rs, now - WindowMs(range), now, StepFor(range), j);
    BucketedResampled(data, range, now, parse);
  }

  lemma FilterFutureNotLaterAt(data: seq<Sample>, now: int, parse: string -> Option<int>, j: int)
    requires 0 <= j < |FilterFuture(data, now, parse)|
    ensures FilterFuture(data, now, parse)[j].time <= now
  {
    FilterFutureNotLater(data, now, parse);
  }


  /** The row of the series that holds an instant of the window. */
  function BucketIndex(start: int, now: int, step: int, t: int): (k: nat)
    requires step > 0 && start <= t <= now
    ensures k < BucketCount(start, now, step)
    ensures BucketOf(start, step) + k * step == BucketOf(t, step)
  {
    DivMonotone(start, t, step);
    DivMonotone(t, now, step);
    var k := t / step - start / step;
    assert BucketOf(start, step) + k * step == BucketOf(t, step) by {
      assert (start / step) * step + (t / step - start / step) * step == (t / step) * step;
    }
    BucketIndexBound(start, now, step, t, k);
    k
  }

  lemma BucketIndexBound(start: int, now: int, step: int, t: int, k: int)
    requires step > 0 && start <= t <= now && k >= 0
    requires BucketOf(start, step) + k * step == BucketOf(t, step)
    ensures k < BucketCount(start, now, step)
  {
    var t0 := BucketOf(start, step);
    var n := (now - t0) / step;
    MultipleFacts(now - t0, step);
    if k > n {
      MulLe(n + 1, k, step);
      MulSucc(n, step);
    }
  }

  /** Every value the resampler emits is positive. */
  lemma ResampledPositive(data: seq<Sample>, range: TimeRange, now: int, parse: string -> Option<int>)
    ensures var r := Resampled(data, range, now, parse);
            forall k :: 0 <= k < |r| && r[k].value.Some? ==> r[k].value.value > 0
  {
    if |data| > 0 && !PassThroughMode(range, |FilterFuture(data, now, parse)|) {
      BucketedResampled(data, range, now, parse);
      SeriesPositive(FilterFuture(data, now, parse), now - WindowMs(range), now, StepFor(range));
    } else if |data| > 0 {
      PassThroughResampled(data, range, now, parse);
      PassThroughAt(FilterFuture(data, now, parse));
    }
  }

  /** Every valued bucket row is positive. */
  lemma SeriesPositive(rs: seq<Reading>, start: int, now: int, step: int)
    requires step > 0 && start <= now
    ensures var s := BucketSeries(rs, start, now, step);
            forall k :: 0 <= k < |s| && s[k].value.Some? ==> s[k].value.value > 0
  {
    var s := BucketSeries(rs, start, now, step);
    forall k | 0 <= k < |s| && s[k].value.Some?
      ensures s[k].value.value > 0
    {
      BucketedValue(rs, start, now, step, k);
    }
  }
}
