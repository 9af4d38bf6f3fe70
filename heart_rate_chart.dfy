/** The heart-rate chart: its series (`timestamp`/`bpm`, gap limit one
    hour), the Y domain computed by hand from every plotted value, and the
    peak, average and resting statistics. */
module HeartRateChart {
  import opened Base
  import opened TimeRanges
  import opened Aggregation
  import opened ChartSeries

  /** `processGaps(aggregated, 'timestamp', 'bpm', 3600000)`. */
  const MaxGapMs: int := 3_600_000

  /** The fields of a heart-rate record that the chart reads. */
  datatype HeartRateData = HeartRateData(timestamp: string, bpm: Option<int>)

  /** `aggregateData(data, 'timestamp', 'bpm', timeRange)` reads these two cells. */
  function Samples(data: seq<HeartRateData>): (ss: seq<Sample>)
    ensures |ss| == |data|
    ensures forall k :: 0 <= k < |data| ==> ss[k] == Sample(data[k].timestamp, data[k].bpm)
  {
    seq(|data|, k requires 0 <= k < |data| => Sample(data[k].timestamp, data[k].bpm))
  }

  /** `processedData`. */
  function ProcessedData(data: seq<HeartRateData>, range: TimeRange, now: int, engine: string -> Option<int>)
    : seq<ChartPoint>
  {
    Plotted(Samples(data), range, now, engine, MaxGapMs)
  }

  /** `processedData` is the heart-rate series, bridged across gaps of at
      most one hour and mapped to plot points, in time order. */
  lemma ProcessedDataInTimeOrder(data: seq<HeartRateData>, range: TimeRange, now: int, engine: string -> Option<int>)
    ensures InTimeOrder(ProcessedData(data, range, now, engine), Mapped(Samples(data), range, now, engine, MaxGapMs))
  {
    PlottedIsSortedBridged(Samples(data), range, now, engine, MaxGapMs);
  }

  /** `mapped.flatMap(d => [d.value, d.dashedValue])` without the nulls. */
  function AllValues(ps: seq<ChartPoint>): seq<real>
  {
    if ps == [] then []
    else
      (if ps[0].value.Some? then [ps[0].value.value as real] else [])
      + (if ps[0].dashed.Some? then [ps[0].dashed.value] else [])
      + AllValues(ps[1..])
  }

  /** `Math.min(...allVals)` and `Math.max(...allVals)`. */
  function MinReal(vs: seq<real>): (m: real)
    requires |vs| > 0
    ensures exists k :: 0 <= k < |vs| && m == vs[k]
    ensures forall k :: 0 <= k < |vs| ==> m <= vs[k]
  {
    if |vs| == 1 then vs[0]
    else
      var rest := MinReal(vs[1..]);
      if vs[0] < rest then vs[0] else rest
  }

  function MaxReal(vs: seq<real>): (m: real)
    requires |vs| > 0
    ensures exists k :: 0 <= k < |vs| && m == vs[k]
    ensures forall k :: 0 <= k < |vs| ==> vs[k] <= m
  {
    if |vs| == 1 then vs[0]
    else
      var rest := MaxReal(vs[1..]);
      if vs[0] > rest then vs[0] else rest
  }

  datatype Domain = Domain(lower: int, upper: int)

  /** `yDomain`: ten below the smallest plotted value (rounded down, never
      below 0) to ten above the largest (rounded up); 60 and 100 stand in
      for them when nothing is plotted. */
  function YDomain(ps: seq<ChartPoint>): Domain
  {
    var vals := AllValues(ps);
    var lo := if |vals| > 0 then MinReal(vals) else 60.0;
    var hi := if |vals| > 0 then MaxReal(vals) else 100.0;
    var lower := Floor(lo - 10.0);
    Domain(if lower > 0 then lower else 0, Ceil(hi + 10.0))
  }

  /** Every plotted value, genuine or bridged, is in AllValues. */
  lemma {:induction false} AllValuesMembers(ps: seq<ChartPoint>, k: int)
    requires 0 <= k < |ps|
    ensures ps[k].value.Some? ==> ps[k].value.value as real in AllValues(ps)
    ensures ps[k].dashed.Some? ==> ps[k].dashed.value in AllValues(ps)
    decreases |ps|
  {
    if k > 0 {
      AllValuesMembers(ps[1..], k - 1);
      assert ps[1..][k - 1] == ps[k];
    }
  }

  /** Nothing is in AllValues when no point carries a value or a `dashedValue`. */
  lemma {:induction false} AllValuesEmpty(ps: seq<ChartPoint>)
    requires forall k :: 0 <= k < |ps| ==> ps[k].value.None? && ps[k].dashed.None?
    ensures AllValues(ps) == []
    decreases |ps|
  {
    if ps != [] {
      assert forall k :: 0 <= k < |ps[1..]| ==> ps[1..][k] == ps[k + 1];
      AllValuesEmpty(ps[1..]);
    }
  }

  /** A value the domain encloses with ten to spare above, and ten below
      unless the floor of 0 cuts in; a value that is not negative is
      enclosed from below in any case. */
  predicate Encloses(d: Domain, v: real)
  {
    && v + 10.0 <= d.upper as real
    && (d.lower == 0 || d.lower as real <= v - 10.0)
    && (v >= 0.0 ==> d.lower as real <= v)
  }

  /** The domain encloses every plotted value, genuine or bridged. */
  lemma YDomainEncloses(ps: seq<ChartPoint>, k: int)
    requires 0 <= k < |ps|
    ensures ps[k].value.Some? ==> Encloses(YDomain(ps), ps[k].value.value as real)
    ensures ps[k].dashed.Some? ==> Encloses(YDomain(ps), ps[k].dashed.value)
  {
    AllValuesMembers(ps, k);
    var vals := AllValues(ps);
    forall v | v in vals
      ensures MinReal(vals) <= v <= MaxReal(vals)
    {
      var j :| 0 <= j < |vals| && vals[j] == v;
    }
  }

  /** With nothing to plot the domain is [50, 110]. */
  lemma YDomainDefault(ps: seq<ChartPoint>)
    requires forall k :: 0 <= k < |ps| ==> ps[k].value.None? && ps[k].dashed.None?
    ensures YDomain(ps) == Domain(50, 110)
  {
    AllValuesEmpty(ps);
  }

  datatype HeartRateStats = HeartRateStats(peak: int, average: int, resting: int)

  /** `stats`: `Math.round` of the largest, of the mean and of the smallest
      genuine value; null when no point has a value. */
  function Stats(ps: seq<ChartPoint>): Option<HeartRateStats>
  {
    var vs := GenuineValues(ps);
    if |vs| == 0 then None else Some(StatsOf(vs))
  }

  function StatsOf(vs: seq<int>): HeartRateStats
    requires |vs| > 0
  {
    HeartRateStats(MathRound(MaxOf(vs) as real), RoundedMean(vs), MathRound(MinOf(vs) as real))
  }

  /** The statistics are null exactly when no point has a value. */
  lemma StatsNull(ps: seq<ChartPoint>)
    ensures Stats(ps).None? <==> forall k :: 0 <= k < |ps| ==> ps[k].value.None?
  {
    GenuineValuesEmpty(ps);
  }

  /** Resting <= average <= peak; peak and resting are the largest and the
      smallest genuine values. */
  lemma StatsOfOrdered(vs: seq<int>)
    requires |vs| > 0
    ensures StatsOf(vs).resting <= StatsOf(vs).average <= StatsOf(vs).peak
    ensures StatsOf(vs).peak == MaxOf(vs) && StatsOf(vs).resting == MinOf(vs)
  {
    RoundedMeanBetween(vs);
  }

  /** Every genuine value lies between the resting and the peak rate. */
  lemma StatsEnclose(ps: seq<ChartPoint>, k: int)
    requires 0 <= k < |ps| && ps[k].value.Some?
    ensures Stats(ps).Some?
    ensures Stats(ps).value.resting <= ps[k].value.value <= Stats(ps).value.peak
  {
    GenuineBetween(ps, k);
    StatsOfOrdered(GenuineValues(ps));
  }
}
