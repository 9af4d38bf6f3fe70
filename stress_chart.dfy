/** The stress chart: its series (`date`/`stress`, gap limit three hours),
    the mean stress index and the state it falls into. */
module StressChart {
  import opened Base
  import opened TimeRanges
  import opened Aggregation
  import opened ChartSeries

  /** `processGaps(aggregated, 'date', 'stress', 10800000)`. */
  const MaxGapMs: int := 10_800_000

  /** The fields of a stress record that the chart reads. */
  datatype StressData = StressData(date: string, stress: Option<int>)

  /** `aggregateData(data, 'date', 'stress', timeRange)` reads these two cells. */
  function Samples(data: seq<StressData>): (ss: seq<Sample>)
    ensures |ss| == |data|
    ensures forall k :: 0 <= k < |data| ==> ss[k] == Sample(data[k].date, data[k].stress)
  {
    seq(|data|, k requires 0 <= k < |data| => Sample(data[k].date, data[k].stress))
  }

  /** `processedData`. */
  function ProcessedData(data: seq<StressData>, range: TimeRange, now: int, engine: string -> Option<int>)
    : seq<ChartPoint>
  {
    Plotted(Samples(data), range, now, engine, MaxGapMs)
  }

  /** `processedData` is the stress series, bridged across gaps of at most
      three hours and mapped to plot points, in time order. */
  lemma ProcessedDataInTimeOrder(data: seq<StressData>, range: TimeRange, now: int, engine: string -> Option<int>)
    ensures InTimeOrder(ProcessedData(data, range, now, engine), Mapped(Samples(data), range, now, engine, MaxGapMs))
  {
    PlottedIsSortedBridged(Samples(data), range, now, engine, MaxGapMs);
  }

  /** The `身心状态` shown beside the mean. */
  datatype StressLevel = Relaxed | Balanced | Loaded

  /** Below 30 relaxed, below 60 balanced, otherwise loaded. */
  function Level(avg: int): StressLevel
  {
    if avg < 30 then Relaxed else if avg < 60 then Balanced else Loaded
  }

  /** The text the chart shows for each state. */
  function Label(l: StressLevel): (s: string)
    ensures |s| == 2
  {
    match l
    case Relaxed => "放松"
    case Balanced => "平衡"
    case Loaded => "负荷"
  }

  /** The rank of a state, from relaxed (0) to loaded (2). */
  function Rank(l: StressLevel): int
  {
    match l
    case Relaxed => 0
    case Balanced => 1
    case Loaded => 2
  }

  /** The three states partition the integers at 30 and 60. */
  lemma LevelBands(avg: int)
    ensures Level(avg) == Relaxed <==> avg < 30
    ensures Level(avg) == Balanced <==> 30 <= avg < 60
    ensures Level(avg) == Loaded <==> 60 <= avg
  {
  }

  /** A higher mean never gives a calmer state. */
  lemma LevelMonotone(a: int, b: int)
    requires a <= b
    ensures Rank(Level(a)) <= Rank(Level(b))
  {
  }

  /** Different states are shown with different labels. */
  lemma LabelsDistinct(l: StressLevel, m: StressLevel)
    requires l != m
    ensures Label(l) != Label(m)
  {
  }

  /** The two summary figures: `压力均值` and the state it falls into. */
  datatype StressStats = StressStats(average: int, status: StressLevel)

  /** `stats`: `Math.round` of the mean genuine value and its state; null
      when no point has a value. */
  function Stats(ps: seq<ChartPoint>): Option<StressStats>
  {
    var vs := GenuineValues(ps);
    if |vs| == 0 then None
    else
      var avg := RoundedMean(vs);
      Some(StressStats(avg, Level(avg)))
  }

  /** The statistics are null exactly when no point has a value. */
  lemma StatsNull(ps: seq<ChartPoint>)
    ensures Stats(ps).None? <==> forall k :: 0 <= k < |ps| ==> ps[k].value.None?
  {
    GenuineValuesEmpty(ps);
  }

  /** The mean lies between the smallest and the largest genuine value, and
      the state is the one the mean falls into. */
  lemma StatsOrdered(ps: seq<ChartPoint>)
    requires Stats(ps).Some?
    ensures MinOf(GenuineValues(ps)) <= Stats(ps).value.average <= MaxOf(GenuineValues(ps))
    ensures Stats(ps).value.status == Level(Stats(ps).value.average)
  {
    RoundedMeanBetween(GenuineValues(ps));
  }

  /** When every genuine value is below 30 the state is relaxed, and when
      every one is at least 60 it is loaded. */
  lemma StatusOfUniformReadings(ps: seq<ChartPoint>)
    requires Stats(ps).Some?
    ensures (forall k :: 0 <= k < |ps| && ps[k].value.Some? ==> ps[k].value.value < 30)
              ==> Stats(ps).value.status == Relaxed
    ensures (forall k :: 0 <= k < |ps| && ps[k].value.Some? ==> 60 <= ps[k].value.value)
              ==> Stats(ps).value.status == Loaded
  {
    var vs := GenuineValues(ps);
    GenuineValuesMembers(ps);
    RoundedMeanBetween(vs);
    var kMax :| 0 <= kMax < |ps| && ps[kMax].value == Some(MaxOf(vs));
    var kMin :| 0 <= kMin < |ps| && ps[kMin].value == Some(MinOf(vs));
  }
}
