/** Values that may be missing, and the arithmetic the pipeline and the chart
    summaries share: JavaScript's Math.round on exact reals, sums, minima,
    maxima and the rounded mean `Math.round(sum / count)`. */
module Base {

  /** A value or nothing: the source's `null` (and `undefined`, and a value
      that is not a number) is None. */
  datatype Option<+T> = None | Some(value: T)

  /** Math.round: the integer nearest to x, halves rounded towards +infinity. */
  function MathRound(x: real): (r: int)
    ensures x - 0.5 < r as real <= x + 0.5
  {
    (x + 0.5).Floor
  }

  /** Math.floor and Math.ceil on exact reals. */
  function Floor(x: real): (r: int)
    ensures r as real <= x < r as real + 1.0
  {
    x.Floor
  }

  function Ceil(x: real): (r: int)
    ensures r as real - 1.0 < x <= r as real
  {
    -((-x).Floor)
  }

  /** `values.reduce((a, b) => a + b, 0)`: the sum, accumulated from the left. */
  function Sum(vs: seq<int>): int
  {
    if vs == [] then 0 else Sum(vs[..|vs| - 1]) + vs[|vs| - 1]
  }

  /** `Math.min(...values)` of a non-empty list. */
  function MinOf(vs: seq<int>): (m: int)
    requires |vs| > 0
    ensures m in vs
    ensures forall k :: 0 <= k < |vs| ==> m <= vs[k]
  {
    if |vs| == 1 then vs[0]
    else
      var rest := MinOf(vs[..|vs| - 1]);
      if vs[|vs| - 1] < rest then vs[|vs| - 1] else rest
  }

  /** `Math.max(...values)` of a non-empty list. */
  function MaxOf(vs: seq<int>): (m: int)
    requires |vs| > 0
    ensures m in vs
    ensures forall k :: 0 <= k < |vs| ==> vs[k] <= m
  {
    if |vs| == 1 then vs[0]
    else
      var rest := MaxOf(vs[..|vs| - 1]);
      if vs[|vs| - 1] > rest then vs[|vs| - 1] else rest
  }

  /** `Math.round(sum / count)` over a non-empty list. */
  function RoundedMean(vs: seq<int>): int
    requires |vs| > 0
  {
    MathRound(Sum(vs) as real / |vs| as real)
  }

  /** The rounded mean never leaves the range of the values averaged. */
  lemma RoundedMeanBetween(vs: seq<int>)
    requires |vs| > 0
    ensures MinOf(vs) <= RoundedMean(vs) <= MaxOf(vs)
  {
    SumBetween(vs, MinOf(vs), MaxOf(vs));
    QuotientBetween(Sum(vs), |vs|, MinOf(vs), MaxOf(vs));
  }

  /** A sum of n values that all lie in [lo, hi] lies in [n*lo, n*hi]. */
  lemma {:induction false} SumBetween(vs: seq<int>, lo: int, hi: int)
    requires forall k :: 0 <= k < |vs| ==> lo <= vs[k] <= hi
    ensures |vs| * lo <= Sum(vs) <= |vs| * hi
  {
    if vs != [] {
      var init := vs[..|vs| - 1];
      SumBetween(init, lo, hi);
      assert |vs| * lo == |init| * lo + lo;
      assert |vs| * hi == |init| * hi + hi;
    }
  }

  /** If n*lo <= s <= n*hi then the exact quotient s/n lies in [lo, hi]. */
  lemma QuotientBetween(s: int, n: int, lo: int, hi: int)
    requires n > 0
    requires n * lo <= s <= n * hi
    ensures lo as real <= s as real / n as real <= hi as real
  {
    var q := s as real / n as real;
    assert q * n as real == s as real;
    assert (n * lo) as real == n as real * lo as real;
    assert (n * hi) as real == n as real * hi as real;
  }

  /** Math.round of the mean of a list of integers that all exceed a bound
      exceeds it too; in particular the mean of positive values is positive. */
  lemma RoundedMeanAbove(vs: seq<int>, lo: int)
    requires |vs| > 0
    requires forall k :: 0 <= k < |vs| ==> vs[k] >= lo
    ensures RoundedMean(vs) >= lo
  {
    RoundedMeanBetween(vs);
  }
}
