/** The reductions pandas applies to a numeric column (sum, min, max, mean,
    median, sample variance), over exact reals. */
module Numeric {
  import opened Cells
  import opened Frames
  import opened Sorting

  function Sum(xs: seq<real>): real
    decreases |xs|
  {
    if |xs| == 0 then 0.0 else Sum(xs[..|xs| - 1]) + xs[|xs| - 1]
  }

  /** The smallest value. */
  function Min(xs: seq<real>): (m: real)
    requires |xs| > 0
    ensures m in xs
    ensures forall i :: 0 <= i < |xs| ==> m <= xs[i]
    decreases |xs|
  {
    if |xs| == 1 then xs[0]
    else
      var m := Min(xs[1..]);
      if xs[0] < m then xs[0] else m
  }

  /** The largest value. */
  function Max(xs: seq<real>): (m: real)
    requires |xs| > 0
    ensures m in xs
    ensures forall i :: 0 <= i < |xs| ==> xs[i] <= m
    decreases |xs|
  {
    if |xs| == 1 then xs[0]
    else
      var m := Max(xs[1..]);
      if xs[0] > m then xs[0] else m
  }

  /** The arithmetic mean. */
  function Mean(xs: seq<real>): real
    requires |xs| > 0
  {
    Sum(xs) / |xs| as real
  }

  function NumKey(x: real): Cell
  {
    Num(x)
  }

  /** The values in ascending order. */
  function Ascending(xs: seq<real>): seq<real>
  {
    SortBy(xs, NumKey, true)
  }

  /** The ascending values are the same values, smallest first. */
  lemma AscendingSpec(xs: seq<real>)
    ensures multiset(Ascending(xs)) == multiset(xs) && |Ascending(xs)| == |xs|
    ensures forall i, j :: 0 <= i < j < |xs| ==> Ascending(xs)[i] <= Ascending(xs)[j]
  {
    SortBySorts(xs, NumKey, true);
    var s := Ascending(xs);
    forall i, j | 0 <= i < j < |xs|
      ensures s[i] <= s[j]
    {
      assert KeyLe(true, NumKey(s[i]), NumKey(s[j]));
    }
  }

  /** pandas' median: the middle value, or the mean of the two middle values
      when the count is even. */
  function Median(xs: seq<real>): real
    requires |xs| > 0
  {
    AscendingSpec(xs);
    var s := Ascending(xs);
    var n := |s|;
    if n % 2 == 1 then s[n / 2] else (s[n / 2 - 1] + s[n / 2]) / 2.0
  }

  /** Sum of squared deviations from `m`. */
  function SquaredDeviations(xs: seq<real>, m: real): (r: real)
    ensures r >= 0.0
    decreases |xs|
  {
    if |xs| == 0 then 0.0
    else
      var d := xs[|xs| - 1] - m;
      SquaredDeviations(xs[..|xs| - 1], m) + d * d
  }

  /** pandas' var() (ddof=1): NaN, here None, for fewer than two values. */
  function SampleVariance(xs: seq<real>): Option<real>
  {
    if |xs| < 2 then None
    else Some(SquaredDeviations(xs, Mean(xs)) / (|xs| - 1) as real)
  }

  lemma ScaleMonotone(k: real, a: real, b: real)
    requires k >= 0.0 && a <= b
    ensures k * a <= k * b
  {
  }

  lemma Distribute(k: real, x: real)
    ensures (k + 1.0) * x == k * x + x
  {
  }

  /** A lower bound of every value bounds the sum by count times it. */
  lemma {:induction false} SumAtLeast(xs: seq<real>, lo: real)
    requires forall i :: 0 <= i < |xs| ==> lo <= xs[i]
    ensures |xs| as real * lo <= Sum(xs)
    decreases |xs|
  {
    if |xs| > 0 {
      var init := xs[..|xs| - 1];
      SumAtLeast(init, lo);
      Distribute(|init| as real, lo);
    }
  }

  /** An upper bound of every value bounds the sum by count times it. */
  lemma {:induction false} SumAtMost(xs: seq<real>, hi: real)
    requires forall i :: 0 <= i < |xs| ==> xs[i] <= hi
    ensures Sum(xs) <= |xs| as real * hi
    decreases |xs|
  {
    if |xs| > 0 {
      var init := xs[..|xs| - 1];
      SumAtMost(init, hi);
      Distribute(|init| as real, hi);
    }
  }

  lemma DivideBounds(total: real, n: real, lo: real, hi: real)
    requires n > 0.0 && n * lo <= total <= n * hi
    ensures lo <= total / n <= hi
  {
    var q := total / n;
    assert total == n * q;
    if q < lo {
      ScaleMonotone(n, q, lo);
    }
    if q > hi {
      ScaleMonotone(n, hi, q);
    }
  }

  lemma MeanWithin(xs: seq<real>, lo: real, hi: real)
    requires |xs| > 0
    requires forall i :: 0 <= i < |xs| ==> lo <= xs[i] <= hi
    ensures lo <= Mean(xs) <= hi
  {
    SumAtLeast(xs, lo);
    SumAtMost(xs, hi);
    DivideBounds(Sum(xs), |xs| as real, lo, hi);
  }

  /** The mean lies between the smallest and the largest value. */
  lemma MeanBounds(xs: seq<real>)
    requires |xs| > 0
    ensures Min(xs) <= Mean(xs) <= Max(xs)
  {
    MeanWithin(xs, Min(xs), Max(xs));
  }

  /** The median lies between the smallest and the largest value. */
  lemma MedianBounds(xs: seq<real>)
    requires |xs| > 0
    ensures Min(xs) <= Median(xs) <= Max(xs)
  {
    AscendingSpec(xs);
    var s := Ascending(xs);
    var n := |s|;
    forall k | 0 <= k < n
      ensures Min(xs) <= s[k] <= Max(xs)
    {
      assert s[k] in multiset(s);
      assert s[k] in xs;
      var i :| 0 <= i < |xs| && xs[i] == s[k];
    }
  }

  /** The sample variance is never negative. */
  lemma VarianceNonNegative(xs: seq<real>)
    ensures SampleVariance(xs).Some? <==> |xs| >= 2
    ensures SampleVariance(xs).Some? ==> SampleVariance(xs).value >= 0.0
  {
  }
}
