/** The HRV chart: its series (`date`/`hrv`, gap limit three hours) and the
    mean and peak of the genuine values. */
module HRVChart {
  import opened Base
  import opened TimeRanges
  import opened Aggregation
  import opened ChartSeries

  /** `processGaps(aggregated, 'date', 'hrv', 10800000)`. */
  const MaxGapMs: int := 10_800_000

  /** The fields of an HRV record that the chart reads. */
  datatype HRVData = HRVData(date: string, hrv: Option<int>)

  /** `aggregateData(data, 'date', 'hrv', timeRange)` reads these two cells. */
  function Samples(data: seq<HRVData>): (ss: seq<Sample>)
    ensures |ss| == |data|
    ensures forall k :: 0 <= k < |data| ==> ss[k] == Sample(data[k].date, data[k].hrv)
  {
    seq(|data|, k requires 0 <= k < |data| => Sample(data[k].date, data[k].hrv))
  }

  /** `processedData`. */
  function ProcessedData(data: seq<HRVData>, range: TimeRange, now: int, engine: string -> Option<int>)
    : seq<ChartPoint>
  {
    Plotted(Samples(data), range, now, engine, MaxGapMs)
  }

  /** `processedData` is the HRV series, bridged across gaps of at most
      three hours and mapped to plot points, in time order. */
  lemma ProcessedDataInTimeOrder(data: seq<HRVData>, range: TimeRange, now: int, engine: string -> Option<int>)
    ensures InTimeOrder(ProcessedData(data, range, now, engine), Mapped(Samples(data), range, now, engine, MaxGapMs))
  {
    PlottedIsSortedBridged(Samples(data), range, now, engine, MaxGapMs);
  }

  /** The two summary figures: `均值 HRV` and `峰值`, in ms. */
  datatype HRVStats = HRVStats(average: int, peak: int)

  /** `stats`: `Math.round` of the mean and of the largest genuine value;
      null when no point has a value. */
  function Stats(ps: seq<ChartPoint>): Option<HRVStats>
  {
    var vs := GenuineValues(ps);
    if |vs| == 0 then None else Some(StatsOf(vs))
  }

  function StatsOf(vs: seq<int>): HRVStats
    requires |vs| > 0
  {
    HRVStats(RoundedMean(vs), MathRound(MaxOf(vs) as real))
  }

  /** The statistics are null exactly when no point has a value. */
  lemma StatsNull(ps: seq<ChartPoint>)
    ensures Stats(ps).None? <==> forall k :: 0 <= k < |ps| ==> ps[k].value.None?
  {
    GenuineValuesEmpty(ps);
  }

  /** The peak is the largest genuine value and the mean lies between the
      smallest value and the peak. */
  lemma StatsOfOrdered(vs: seq<int>)
    requires |vs| > 0
    ensures MinOf(vs) <= StatsOf(vs).average <= StatsOf(vs).peak
    ensures StatsOf(vs).peak == MaxOf(vs)
  {
    RoundedMeanBetween(vs);
  }

  /** No genuine value exceeds the peak. */
  lemma StatsEnclose(ps: seq<ChartPoint>, k: int)
    requires 0 <= k < |ps| && ps[k].value.Some?
    ensures Stats(ps).Some?
    ensures ps[k].value.value <= Stats(ps).value.peak
  {
    GenuineBetween(ps, k);
    StatsOfOrdered(GenuineValues(ps));
  }
}
