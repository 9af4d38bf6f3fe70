/** What the four metric charts share: the `processedData` chain
    `aggregateData` → `processGaps` → map to plot points → sort by time,
    and the genuine values (`processedData.filter(d => d.value !== null)`)
    from which each chart computes its summary. */
module ChartSeries {
  import opened Base
  import opened TimeRanges
  import opened Sorting
  import opened Aggregation
  import opened GapBridging
  import DateParsing

  /** A plot point: `value`, the untouched `dashedValue` and the sort key
      (`_sortTime` or `time`), the instant of the row's timestamp. */
  datatype ChartPoint = ChartPoint(value: Option<int>, dashed: Option<real>, time: int)

  function ToChartPoint(b: Bridged): (c: ChartPoint)
    ensures c.value == b.point.value && c.dashed == b.dashed && c.time == b.point.time
  {
    ChartPoint(b.point.value, b.dashed, b.point.time)
  }

  function ChartTime(c: ChartPoint): int
  {
    c.time
  }

  function ToChartPoints(bs: seq<Bridged>): (cs: seq<ChartPoint>)
    ensures |cs| == |bs|
    ensures forall k :: 0 <= k < |bs| ==> cs[k] == ToChartPoint(bs[k])
  {
    seq(|bs|, k requires 0 <= k < |bs| => ToChartPoint(bs[k]))
  }

  /** The rows of a chart whose samples are `data` and whose gap limit is
      `maxGapMs`, when the clock reads `now` and the host parses dates with
      `engine`: aggregated, bridged and mapped to plot points, before the sort. */
  function Mapped(data: seq<Sample>, range: TimeRange, now: int, engine: string -> Option<int>, maxGapMs: int)
    : seq<ChartPoint>
  {
    ToChartPoints(BridgedSeries(Resampled(data, range, now, DateParsing.Parser(engine)), maxGapMs))
  }

  /** The `processedData` of that chart: the mapped rows sorted by time. */
  function Plotted(data: seq<Sample>, range: TimeRange, now: int, engine: string -> Option<int>, maxGapMs: int)
    : seq<ChartPoint>
  {
    SortBy(Mapped(data, range, now, engine, maxGapMs), ChartTime)
  }

  /** r holds the points of ps in time order: sorted by time, a permutation
      of ps, and points with equal instants kept in their order in ps. */
  ghost predicate InTimeOrder(r: seq<ChartPoint>, ps: seq<ChartPoint>)
  {
    && SortedBy(r, ChartTime)
    && multiset(r) == multiset(ps)
    && forall t :: WithKey(r, ChartTime, t) == WithKey(ps, ChartTime, t)
  }

  /** The plotted series is the bridged series, every row mapped with its
      value and its `dashedValue` untouched, rearranged into time order. */
  lemma PlottedIsSortedBridged(data: seq<Sample>, range: TimeRange, now: int,
                               engine: string -> Option<int>, maxGapMs: int)
    ensures InTimeOrder(Plotted(data, range, now, engine, maxGapMs), Mapped(data, range, now, engine, maxGapMs))
  {
    var mapped := Mapped(data, range, now, engine, maxGapMs);
    SortByPermutes(mapped, ChartTime);
    forall t
      ensures WithKey(SortBy(mapped, ChartTime), ChartTime, t) == WithKey(mapped, ChartTime, t)
    {
      SortByStable(mapped, ChartTime, t);
    }
  }

  /** `valid.map(d => d.value)`: the values of the genuine points, in order. */
  function GenuineValues(ps: seq<ChartPoint>): seq<int>
  {
    if ps == [] then []
    else (if ps[0].value.Some? then [ps[0].value.value] else []) + GenuineValues(ps[1..])
  }

  /** There are no genuine values exactly when every point is null. */
  lemma {:induction false} GenuineValuesEmpty(ps: seq<ChartPoint>)
    ensures |GenuineValues(ps)| == 0 <==> forall k :: 0 <= k < |ps| ==> ps[k].value.None?
    decreases |ps|
  {
    if ps != [] {
      GenuineValuesEmpty(ps[1..]);
      if forall k :: 0 <= k < |ps| ==> ps[k].value.None? {
        assert forall k :: 0 <= k < |ps[1..]| ==> ps[1..][k].value.None?;
      } else if ps[0].value.None? {
        var k :| 0 <= k < |ps| && ps[k].value.Some?;
        assert ps[1..][k - 1].value.Some?;
      }
    }
  }

  /** The genuine values are exactly the non-null values of the points. */
  lemma {:induction false} GenuineValuesMembers(ps: seq<ChartPoint>)
    ensures forall v :: v in GenuineValues(ps) <==> exists k :: 0 <= k < |ps| && ps[k].value == Some(v)
    decreases |ps|
  {
    if ps != [] {
      GenuineValuesMembers(ps[1..]);
      var head := if ps[0].value.Some? then [ps[0].value.value] else [];
      assert GenuineValues(ps) == head + GenuineValues(ps[1..]);
      forall v | v in GenuineValues(ps)
        ensures exists k :: 0 <= k < |ps| && ps[k].value == Some(v)
      {
        if v !in head {
          var k :| 0 <= k < |ps[1..]| && ps[1..][k].value == Some(v);
          assert ps[k + 1].value == Some(v);
        }
      }
      forall v | exists k :: 0 <= k < |ps| && ps[k].value == Some(v)
        ensures v in GenuineValues(ps)
      {
        var k :| 0 <= k < |ps| && ps[k].value == Some(v);
        if k > 0 {
          assert ps[1..][k - 1].value == Some(v);
        }
      }
    }
  }

  /** Every genuine value lies between the smallest and the largest. */
  lemma GenuineBetween(ps: seq<ChartPoint>, k: int)
    requires 0 <= k < |ps| && ps[k].value.Some?
    ensures |GenuineValues(ps)| > 0
    ensures MinOf(GenuineValues(ps)) <= ps[k].value.value <= MaxOf(GenuineValues(ps))
  {
    GenuineValuesMembers(ps);
    var vs := GenuineValues(ps);
    var v := ps[k].value.value;
    assert v in vs;
    var j :| 0 <= j < |vs| && vs[j] == v;
  }
}
