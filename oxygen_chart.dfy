/** The blood-oxygen chart: its series (`date`/`soa2`, gap limit three
    hours), the mean saturation and the oxygenation label. */
module OxygenChart {
  import opened Base
  import opened TimeRanges
  import opened Aggregation
  import opened ChartSeries

  /** `processGaps(aggregated, 'date', 'soa2', 10800000)`. */
  const MaxGapMs: int := 10_800_000

  /** The fields of a blood-oxygen record that the chart reads. */
  datatype BloodOxygenData = BloodOxygenData(date: string, soa2: Option<int>)

  /** `aggregateData(data, 'date', 'soa2', timeRange)` reads these two cells. */
  function Samples(data: seq<BloodOxygenData>): (ss: seq<Sample>)
    ensures |ss| == |data|
    ensures forall k :: 0 <= k < |data| ==> ss[k] == Sample(data[k].date, data[k].soa2)
  {
    seq(|data|, k requires 0 <= k < |data| => Sample(data[k].date, data[k].soa2))
  }

  /** `processedData`. */
  function ProcessedData(data: seq<BloodOxygenData>, range: TimeRange, now: int, engine: string -> Option<int>)
    : seq<ChartPoint>
  {
    Plotted(Samples(data), range, now, engine, MaxGapMs)
  }

  /** `processedData` is the saturation series, bridged across gaps of at
      most three hours and mapped to plot points, in time order. */
  lemma ProcessedDataInTimeOrder(data: seq<BloodOxygenData>, range: TimeRange, now: int,
                                 engine: string -> Option<int>)
    ensures InTimeOrder(ProcessedData(data, range, now, engine), Mapped(Samples(data), range, now, engine, MaxGapMs))
  {
    PlottedIsSortedBridged(Samples(data), range, now, engine, MaxGapMs);
  }

  /** The label shown for `氧合水平`, whatever the readings. */
  const Level: string := "优秀"

  /** The two summary figures: `平均血氧` in percent and `氧合水平`. */
  datatype OxygenStats = OxygenStats(average: int, level: string)

  /** `stats`: `Math.round` of the mean genuine value and the fixed label;
      null when no point has a value. */
  function Stats(ps: seq<ChartPoint>): Option<OxygenStats>
  {
    var vs := GenuineValues(ps);
    if |vs| == 0 then None else Some(OxygenStats(RoundedMean(vs), Level))
  }

  /** The statistics are null exactly when no point has a value. */
  lemma StatsNull(ps: seq<ChartPoint>)
    ensures Stats(ps).None? <==> forall k :: 0 <= k < |ps| ==> ps[k].value.None?
  {
    GenuineValuesEmpty(ps);
  }

  /** The mean lies between the smallest and the largest genuine value, and
      the label does not depend on the readings. */
  lemma StatsOrdered(ps: seq<ChartPoint>)
    requires Stats(ps).Some?
    ensures MinOf(GenuineValues(ps)) <= Stats(ps).value.average <= MaxOf(GenuineValues(ps))
    ensures Stats(ps).value.level == Level
  {
    RoundedMeanBetween(GenuineValues(ps));
  }

  /** Readings that are all at least lo (a saturation floor, say) average
      at least lo. */
  lemma StatsAbove(ps: seq<ChartPoint>, lo: int)
    requires Stats(ps).Some?
    requires forall k :: 0 <= k < |ps| && ps[k].value.Some? ==> lo <= ps[k].value.value
    ensures lo <= Stats(ps).value.average
  {
    var vs := GenuineValues(ps);
    GenuineValuesMembers(ps);
    forall j | 0 <= j < |vs|
      ensures lo <= vs[j]
    {
      assert vs[j] in vs;
      var k :| 0 <= k < |ps| && ps[k].value == Some(vs[j]);
    }
    RoundedMeanAbove(vs, lo);
  }
}
