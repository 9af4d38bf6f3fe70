/** `processGaps`: the gap bridger. Every row keeps its fields and gains a
    `dashedValue`: a genuine row (one with a value) mirrors its value; a
    null row lying between two genuine rows whose instants are more than 0
    and at most `maxGapMs` apart gets the linear interpolation between
    them; every other null row keeps a null `dashedValue`. A series of
    fewer than two rows is handed back as it is. */
module GapBridging {
  import opened Base
  import opened Aggregation

  /** A row of the bridged series: the row from `aggregateData` and its
      `dashedValue` (None is the source's null). */
  datatype Bridged = Bridged(point: Point, dashed: Option<real>)

  predicate Genuine(p: Point)
  {
    p.value.Some?
  }

  /** The `dashedValue` the first pass gives a row: its own value, or null. */
  function Mirror(p: Point): Option<real>
  {
    if p.value.Some? then Some(p.value.value as real) else None
  }

  /** The nearest genuine row at or before index j, or -1 when there is none. */
  function PrevFrom(s: seq<Point>, j: int): (p: int)
    requires -1 <= j < |s|
    ensures -1 <= p <= j
    ensures p >= 0 ==> Genuine(s[p])
    ensures forall k :: p < k <= j ==> !Genuine(s[k])
    decreases j + 1
  {
    if j < 0 then -1
    else if Genuine(s[j]) then j
    else PrevFrom(s, j - 1)
  }

  /** The nearest genuine row at or after index j, or -1 when there is none. */
  function NextFrom(s: seq<Point>, j: int): (n: int)
    requires 0 <= j <= |s|
    ensures n == -1 || j <= n < |s|
    ensures n >= 0 ==> Genuine(s[n])
    ensures forall k :: j <= k < (if n == -1 then |s| else n) ==> !Genuine(s[k])
    decreases |s| - j
  {
    if j == |s| then -1
    else if Genuine(s[j]) then j
    else NextFrom(s, j + 1)
  }

  /** `prevIdx` and `nextIdx` of row i: its nearest genuine neighbours. */
  function PrevGenuine(s: seq<Point>, i: int): int
    requires 0 <= i < |s|
  {
    PrevFrom(s, i - 1)
  }

  function NextGenuine(s: seq<Point>, i: int): int
    requires 0 <= i < |s|
  {
    NextFrom(s, i + 1)
  }

  /** `v0 + (v1 - v0) * ((t - t0) / (t1 - t0))` on exact reals. */
  function Interpolate(v0: int, v1: int, t0: int, t1: int, t: int): real
    requires t0 < t1
  {
    v0 as real + (v1 - v0) as real * ((t - t0) as real / (t1 - t0) as real)
  }

  /** The `dashedValue` of row i of a series of at least two rows. */
  function DashedAt(s: seq<Point>, maxGapMs: int, i: int): Option<real>
    requires 0 <= i < |s|
  {
    if Genuine(s[i]) then Mirror(s[i])
    else
      var p := PrevGenuine(s, i);
      var n := NextGenuine(s, i);
      if p == -1 || n == -1 then None
      else
        var dt := s[n].time - s[p].time;
        if 0 < dt <= maxGapMs
        then Some(Interpolate(s[p].value.value, s[n].value.value, s[p].time, s[n].time, s[i].time))
        else None
  }

  /** What `processGaps(data, timeKey, valKey, maxGapMs)` returns. A series
      of fewer than two rows comes back without a `dashedValue`, which the
      callers read as null. */
  function BridgedSeries(s: seq<Point>, maxGapMs: int): seq<Bridged>
  {
    if |s| < 2 then seq(|s|, k requires 0 <= k < |s| => Bridged(s[k], None))
    else seq(|s|, k requires 0 <= k < |s| => Bridged(s[k], DashedAt(s, maxGapMs, k)))
  }

  /** `processGaps`: the copy with null `dashedValue`s, the pass that mirrors
      the genuine values and the pass that bridges the null rows. */
  method ProcessGaps(data: seq<Point>, maxGapMs: int) returns (result: seq<Bridged>)
    ensures result == BridgedSeries(data, maxGapMs)
  {
    if |data| < 2 {
      return seq(|data|, k requires 0 <= k < |data| => Bridged(data[k], None));
    }
    result := seq(|data|, k requires 0 <= k < |data| => Bridged(data[k], None));
    result := MirrorPass(data, result);
    result := BridgePass(data, maxGapMs, result);
  }

  /** The first loop: every genuine row's `dashedValue` becomes its value. */
  method MirrorPass(data: seq<Point>, copy: seq<Bridged>) returns (result: seq<Bridged>)
    requires |copy| == |data|
    requires forall k :: 0 <= k < |copy| ==> copy[k] == Bridged(data[k], None)
    ensures |result| == |data|
    ensures forall k :: 0 <= k < |result| ==> result[k] == Bridged(data[k], Mirror(data[k]))
  {
    result := copy;
    var i := 0;
    while i < |result|
      invariant 0 <= i <= |result| == |data|
      invariant forall k :: 0 <= k < i ==> result[k] == Bridged(data[k], Mirror(data[k]))
      invariant forall k :: i <= k < |result| ==> result[k] == Bridged(data[k], None)
    {
      if result[i].point.value.Some? {
        result := result[i := result[i].(dashed := Some(result[i].point.value.value as real))];
      }
      i := i + 1;
    }
  }

  /** The second loop: every null row's `dashedValue` is bridged. */
  method BridgePass(data: seq<Point>, maxGapMs: int, mirrored: seq<Bridged>) returns (result: seq<Bridged>)
    requires |mirrored| == |data|
    requires forall k :: 0 <= k < |mirrored| ==> mirrored[k] == Bridged(data[k], Mirror(data[k]))
    ensures |result| == |data|
    ensures forall k :: 0 <= k < |result| ==> result[k] == Bridged(data[k], DashedAt(data, maxGapMs, k))
  {
    result := mirrored;
    var i := 0;
    while i < |result|
      invariant 0 <= i <= |result| == |data|
      invariant forall k :: 0 <= k < i ==> result[k] == Bridged(data[k], DashedAt(data, maxGapMs, k))
      invariant forall k :: i <= k < |result| ==> result[k] == Bridged(data[k], Mirror(data[k]))
    {
      if result[i].point.value.None? {
        // The rows of result carry the fields of data unchanged.
        var dashed := BridgeAt(data, i, maxGapMs);
        result := result[i := result[i].(dashed := dashed)];
      }
      i := i + 1;
    }
  }

  /** The body of the bridging pass for one null row: the two neighbour
      scans, the gap test, the scan for a genuine row in between and the
      interpolation. */
  method BridgeAt(points: seq<Point>, i: int, maxGapMs: int) returns (dashed: Option<real>)
    requires 0 <= i < |points| && !Genuine(points[i])
    ensures dashed == DashedAt(points, maxGapMs, i)
  {
    var prevIdx := FindPrev(points, i);
    var nextIdx := FindNext(points, i);
    dashed := None;
    if prevIdx != -1 && nextIdx != -1 {
      var t0 := points[prevIdx].time;
      var t1 := points[nextIdx].time;
      var dt := t1 - t0;
      if dt > 0 && dt <= maxGapMs {
        var hasValidBetween := AnyGenuine(points, prevIdx + 1, nextIdx);
        NothingBetweenNeighbours(points, i);
        if !hasValidBetween {
          var v0 := points[prevIdx].value.value;
          var v1 := points[nextIdx].value.value;
          var curT := points[i].time;
          var ratio := (curT - t0) as real / dt as real;
          dashed := Some(v0 as real + (v1 - v0) as real * ratio);
          assert Interpolate(v0, v1, t0, t1, curT)
              == v0 as real + (v1 - v0) as real * ((curT - t0) as real / (t1 - t0) as real);
          assert dashed.value == Interpolate(v0, v1, t0, t1, curT);
        } else {
          assert false;
        }
      }
    }
  }

  /** The backward scan `for (j = i - 1; j >= 0; j--)`. */
  method FindPrev(points: seq<Point>, i: int) returns (prevIdx: int)
    requires 0 <= i < |points|
    ensures prevIdx == PrevGenuine(points, i)
  {
    prevIdx := -1;
    var j := i - 1;
    while j >= 0
      invariant -1 <= j < i
      invariant forall k :: j < k < i ==> !Genuine(points[k])
      decreases j
    {
      if points[j].value.Some? {
        prevIdx := j;
        break;
      }
      j := j - 1;
    }
    PrevUnique(points, i - 1, prevIdx);
  }

  /** The forward scan `for (j = i + 1; j < result.length; j++)`. */
  method FindNext(points: seq<Point>, i: int) returns (nextIdx: int)
    requires 0 <= i < |points|
    ensures nextIdx == NextGenuine(points, i)
  {
    nextIdx := -1;
    var j := i + 1;
    while j < |points|
      invariant i + 1 <= j <= |points|
      invariant forall k :: i + 1 <= k < j ==> !Genuine(points[k])
    {
      if points[j].value.Some? {
        nextIdx := j;
        break;
      }
      j := j + 1;
    }
    NextUnique(points, i + 1, nextIdx);
  }

  /** The scan `for (k = prevIdx + 1; k < nextIdx; k++)` for a genuine row. */
  method AnyGenuine(points: seq<Point>, lo: int, hi: int) returns (found: bool)
    requires 0 <= lo && hi <= |points|
    ensures found <==> exists k :: lo <= k < hi && Genuine(points[k])
  {
    found := false;
    var k := lo;
    while k < hi
      invariant lo <= k && (k <= hi || k == lo)
      invariant forall m :: lo <= m < k ==> !Genuine(points[m])
    {
      if points[k].value.Some? {
        found := true;
        break;
      }
      k := k + 1;
    }
  }

  /** The nearest genuine row before j is pinned down by its defining facts. */
  lemma PrevUnique(s: seq<Point>, j: int, q: int)
    requires -1 <= q <= j < |s|
    requires q >= 0 ==> Genuine(s[q])
    requires forall k :: q < k <= j ==> !Genuine(s[k])
    ensures q == PrevFrom(s, j)
  {
  }

  lemma NextUnique(s: seq<Point>, j: int, q: int)
    requires 0 <= j <= |s|
    requires q == -1 || j <= q < |s|
    requires q >= 0 ==> Genuine(s[q])
    requires forall k :: j <= k < (if q == -1 then |s| else q) ==> !Genuine(s[k])
    ensures q == NextFrom(s, j)
  {
  }

  /** No genuine row lies strictly between the two neighbours of a null row,
      so the source's `hasValidBetween` is never true. */
  lemma NothingBetweenNeighbours(s: seq<Point>, i: int)
    requires 0 <= i < |s| && !Genuine(s[i])
    requires PrevGenuine(s, i) != -1 && NextGenuine(s, i) != -1
    ensures forall k :: PrevGenuine(s, i) < k < NextGenuine(s, i) ==> !Genuine(s[k])
  {
  }

  // ---------------------------------------------------------------------
  // Properties

  /** The interpolation is exact at both ends and, between them, stays
      within the two end values. */
  lemma InterpolateBounds(v0: int, v1: int, t0: int, t1: int, t: int)
    requires t0 < t1
    ensures Interpolate(v0, v1, t0, t1, t0) == v0 as real
    ensures Interpolate(v0, v1, t0, t1, t1) == v1 as real
    ensures t0 <= t <= t1 ==>
      (if v0 <= v1 then v0 else v1) as real <= Interpolate(v0, v1, t0, t1, t)
      <= (if v0 <= v1 then v1 else v0) as real
  {
    var dt := (t1 - t0) as real;
    assert (t1 - t0) as real / dt == 1.0;
    if t0 <= t <= t1 {
      var ratio := (t - t0) as real / dt;
      UnitRatio((t - t0) as real, dt);
      ScaledWithin((v1 - v0) as real, ratio);
    }
  }

  /** The elapsed fraction of the gap lies in [0, 1]. */
  lemma UnitRatio(x: real, dt: real)
    requires 0.0 <= x <= dt && dt > 0.0
    ensures 0.0 <= x / dt <= 1.0
  {
    var r := x / dt;
    assert r * dt == x;
    assert (1.0 - r) * dt == dt - x;
  }

  /** A fraction of a difference lies between 0 and the difference. */
  lemma ScaledWithin(d: real, r: real)
    requires 0.0 <= r <= 1.0
    ensures d >= 0.0 ==> 0.0 <= d * r <= d
    ensures d <= 0.0 ==> d <= d * r <= 0.0
  {
    assert d - d * r == d * (1.0 - r);
  }

  /** Every row keeps all its fields: only `dashedValue` is added. */
  lemma BridgedKeepsRows(s: seq<Point>, maxGapMs: int)
    ensures |BridgedSeries(s, maxGapMs)| == |s|
    ensures forall k :: 0 <= k < |s| ==> BridgedSeries(s, maxGapMs)[k].point == s[k]
  {
  }

  /** A series of fewer than two rows is not bridged at all. */
  lemma ShortSeriesUnbridged(s: seq<Point>, maxGapMs: int)
    requires |s| < 2
    ensures forall k :: 0 <= k < |s| ==> BridgedSeries(s, maxGapMs)[k].dashed == None
  {
  }

  /** In a longer series every genuine row's `dashedValue` is its value. */
  lemma GenuineRowMirrored(s: seq<Point>, maxGapMs: int, k: int)
    requires |s| >= 2 && 0 <= k < |s| && Genuine(s[k])
    ensures BridgedSeries(s, maxGapMs)[k].dashed == Some(s[k].value.value as real)
  {
  }

  /** Whether genuine rows p < k < n are the nearest neighbours of row k,
      their instants more than 0 and at most maxGapMs apart. */
  predicate Bridges(s: seq<Point>, maxGapMs: int, p: int, k: int, n: int)
  {
    && 0 <= p < k < n < |s|
    && Genuine(s[p]) && Genuine(s[n])
    && (forall m :: p < m < n ==> !Genuine(s[m]))
    && 0 < s[n].time - s[p].time <= maxGapMs
  }

  /** A null row of a longer series is bridged exactly when it lies between
      two genuine rows with nothing genuine in between and a gap of more
      than 0 and at most maxGapMs (inclusive) between their instants; a
      null row in a leading or trailing run, or in too wide a gap, keeps a
      null `dashedValue`. */
  lemma BridgedExactly(s: seq<Point>, maxGapMs: int, k: int)
    requires |s| >= 2 && 0 <= k < |s| && !Genuine(s[k])
    ensures BridgedSeries(s, maxGapMs)[k].dashed.Some?
        <==> exists p, n :: Bridges(s, maxGapMs, p, k, n)
  {
    if BridgedSeries(s, maxGapMs)[k].dashed.Some? {
      var p, n := BridgedNeighbours(s, maxGapMs, k);
    }
    if exists p', n' :: Bridges(s, maxGapMs, p', k, n') {
      var p', n' :| Bridges(s, maxGapMs, p', k, n');
      BridgedAt(s, maxGapMs, k);
      DashedAtBridged(s, maxGapMs, p', k, n');
    }
  }

  /** A null row with a `dashedValue` is bridged by its two nearest genuine
      neighbours. */
  lemma BridgedNeighbours(s: seq<Point>, maxGapMs: int, k: int) returns (p: int, n: int)
    requires |s| >= 2 && 0 <= k < |s| && !Genuine(s[k])
    requires BridgedSeries(s, maxGapMs)[k].dashed.Some?
    ensures Bridges(s, maxGapMs, p, k, n)
  {
    BridgedAt(s, maxGapMs, k);
    p := PrevGenuine(s, k);
    n := NextGenuine(s, k);
    DashedAtSome(s, maxGapMs, k);
  }

  /** A null row with a `dashedValue` has two genuine neighbours whose
      instants are more than 0 and at most maxGapMs apart. */
  lemma DashedAtSome(s: seq<Point>, maxGapMs: int, k: int)
    requires 0 <= k < |s| && !Genuine(s[k]) && DashedAt(s, maxGapMs, k).Some?
    ensures PrevGenuine(s, k) != -1 && NextGenuine(s, k) != -1
    ensures 0 < s[NextGenuine(s, k)].time - s[PrevGenuine(s, k)].time <= maxGapMs
  {
  }

  /** The value of a bridged row is the interpolation between its two
      neighbours at its own instant; when the series is in time order it
      lies between the two neighbours' values. */
  lemma BridgedValue(s: seq<Point>, maxGapMs: int, p: int, k: int, n: int)
    requires |s| >= 2
    requires Bridges(s, maxGapMs, p, k, n)
    ensures var v0 := s[p].value.value;
            var v1 := s[n].value.value;
            var d := BridgedSeries(s, maxGapMs)[k].dashed;
            && d == Some(Interpolate(v0, v1, s[p].time, s[n].time, s[k].time))
            && (s[p].time <= s[k].time <= s[n].time ==>
                  (if v0 <= v1 then v0 else v1) as real <= d.value
                  <= (if v0 <= v1 then v1 else v0) as real)
  {
    var v0 := s[p].value.value;
    var v1 := s[n].value.value;
    BridgedAt(s, maxGapMs, k);
    DashedAtBridged(s, maxGapMs, p, k, n);
    InterpolateBounds(v0, v1, s[p].time, s[n].time, s[k].time);
  }

  lemma BridgedAt(s: seq<Point>, maxGapMs: int, k: int)
    requires |s| >= 2 && 0 <= k < |s|
    ensures BridgedSeries(s, maxGapMs)[k].dashed == DashedAt(s, maxGapMs, k)
  {
  }

  /** The row between two bridging neighbours gets their interpolation. */
  lemma DashedAtBridged(s: seq<Point>, maxGapMs: int, p: int, k: int, n: int)
    requires Bridges(s, maxGapMs, p, k, n)
    ensures DashedAt(s, maxGapMs, k)
         == Some(Interpolate(s[p].value.value, s[n].value.value, s[p].time, s[n].time, s[k].time))
  {
    PrevUnique(s, k - 1, p);
    NextUnique(s, k + 1, n);
  }

  /** An hourly series with a missing middle hour between 60 and 100 is
      bridged with 80 when the gap limit equals the two hours between the
      neighbours (the limit itself is allowed), and not bridged with a
      limit one millisecond shorter. */
  lemma MidpointExample()
    ensures var s := [Point(0, Some(60), true), Point(3_600_000, None, true), Point(7_200_000, Some(100), true)];
            && BridgedSeries(s, 7_200_000)[1].dashed == Some(80.0)
            && BridgedSeries(s, 7_199_999)[1].dashed == None
  {
    var s := [Point(0, Some(60), true), Point(3_600_000, None, true), Point(7_200_000, Some(100), true)];
    assert PrevGenuine(s, 1) == 0 && NextGenuine(s, 1) == 2;
  }
}
