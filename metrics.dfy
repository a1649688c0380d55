/** The aggregate statistics of an experiment: the engine's win rate over a
    list of per-game scores (1.0 win, 0.5 draw, 0.0 loss) and the mean and
    sample standard deviation of its move times.

    Reals stand for Python floats, without rounding. The square root inside
    `statistics.stdev` is a parameter. */
module Metrics {

  /** Python's `sum`: the running total from the left. */
  function Sum(xs: seq<real>): real
  {
    if xs == [] then 0.0 else Sum(xs[..|xs| - 1]) + xs[|xs| - 1]
  }

  /** `statistics.mean`, which rejects an empty list. */
  function Mean(xs: seq<real>): real
    requires xs != []
  {
    Sum(xs) / (|xs| as real)
  }

  /** `calculate_winrate`: the mean score, 0.0 for no games. */
  function CalculateWinrate(results: seq<real>): (rate: real)
    ensures results == [] ==> rate == 0.0
    ensures results != [] ==> rate * (|results| as real) == Sum(results)
  {
    if results == [] then 0.0 else Mean(results)
  }

  /** The sum of squared deviations from the mean divided by n - 1, the
      quantity whose square root `statistics.stdev` returns. */
  function SampleVariance(xs: seq<real>): real
    requires |xs| > 1
  {
    var m := Mean(xs);
    Sum(seq(|xs|, i requires 0 <= i < |xs| => (xs[i] - m) * (xs[i] - m))) / ((|xs| - 1) as real)
  }

  /** `calculate_stats`: the mean and sample standard deviation of the move
      times; (0.0, 0.0) for none, and a standard deviation of 0.0 for a
      single time. */
  function CalculateStats(moveTimes: seq<real>, sqrt: real -> real): (stats: (real, real))
    ensures moveTimes == [] ==> stats == (0.0, 0.0)
    ensures |moveTimes| == 1 ==> stats == (moveTimes[0], 0.0)
    ensures |moveTimes| > 1 ==> stats.1 == sqrt(SampleVariance(moveTimes))
    ensures moveTimes != [] ==> stats.0 * (|moveTimes| as real) == Sum(moveTimes)
  {
    if moveTimes == [] then (0.0, 0.0)
    else
      assert |moveTimes| == 1 ==> moveTimes[..0] == [] && Sum(moveTimes) == moveTimes[0];
      (Mean(moveTimes), if |moveTimes| > 1 then sqrt(SampleVariance(moveTimes)) else 0.0)
  }

  // ----- Properties of the sums -----

  lemma {:induction false} SumConcat(a: seq<real>, b: seq<real>)
    ensures Sum(a + b) == Sum(a) + Sum(b)
    decreases |b|
  {
    if b == [] {
      assert a + b == a;
    } else {
      var init := b[..|b| - 1];
      assert (a + b)[..|a + b| - 1] == a + init;
      SumConcat(a, init);
    }
  }

  /** Taking one element out of a list takes its value out of the sum. */
  lemma SumRemoveAt(xs: seq<real>, k: nat)
    requires k < |xs|
    ensures Sum(xs) == Sum(xs[..k] + xs[k + 1..]) + xs[k]
  {
    assert xs == xs[..k] + [xs[k]] + xs[k + 1..];
    SumConcat(xs[..k] + [xs[k]], xs[k + 1..]);
    SumConcat(xs[..k], [xs[k]]);
    SumConcat(xs[..k], xs[k + 1..]);
    assert Sum([xs[k]]) == xs[k] by {
      assert [xs[k]][..0] == [];
    }
  }

  /** The sum does not depend on the order of the list. */
  lemma {:induction false} SumPermutation(xs: seq<real>, ys: seq<real>)
    requires multiset(xs) == multiset(ys)
    ensures Sum(xs) == Sum(ys)
    decreases |xs|
  {
    if xs == [] {
      assert |ys| == |multiset(ys)| == 0;
    } else {
      var init, x := xs[..|xs| - 1], xs[|xs| - 1];
      assert xs == init + [x];
      assert x in multiset(ys);
      var k :| 0 <= k < |ys| && ys[k] == x;
      var rest := ys[..k] + ys[k + 1..];
      assert ys == ys[..k] + [x] + ys[k + 1..];
      assert multiset(ys) == multiset(ys[..k]) + multiset{x} + multiset(ys[k + 1..]);
      assert multiset(rest) == multiset(ys[..k]) + multiset(ys[k + 1..]);
      assert multiset(xs) == multiset(init) + multiset{x};
      calc {
        multiset(init);
        multiset(xs) - multiset{x};
        multiset(ys) - multiset{x};
        multiset(rest);
      }
      SumPermutation(init, rest);
      SumRemoveAt(ys, k);
    }
  }

  /** Bounds on every element bound the sum. */
  lemma {:induction false} SumBounds(xs: seq<real>, lo: real, hi: real)
    requires forall i :: 0 <= i < |xs| ==> lo <= xs[i] <= hi
    ensures (|xs| as real) * lo <= Sum(xs) <= (|xs| as real) * hi
  {
    if xs != [] {
      SumBounds(xs[..|xs| - 1], lo, hi);
    }
  }

  lemma {:induction false} SumNonNegative(xs: seq<real>)
    requires forall i :: 0 <= i < |xs| ==> 0.0 <= xs[i]
    ensures 0.0 <= Sum(xs)
  {
    if xs != [] {
      SumNonNegative(xs[..|xs| - 1]);
    }
  }

  /** Strict lower bounds on every element give a strict bound on the sum of
      a non-empty list. */
  lemma {:induction false} SumAbove(xs: seq<real>, c: real)
    requires xs != [] && forall i :: 0 <= i < |xs| ==> c < xs[i]
    ensures (|xs| as real) * c < Sum(xs)
  {
    if |xs| > 1 {
      SumAbove(xs[..|xs| - 1], c);
    }
  }

  /** The mirror image of `SumAbove`. */
  lemma {:induction false} SumBelow(xs: seq<real>, c: real)
    requires xs != [] && forall i :: 0 <= i < |xs| ==> xs[i] < c
    ensures Sum(xs) < (|xs| as real) * c
  {
    if |xs| > 1 {
      SumBelow(xs[..|xs| - 1], c);
    }
  }

  // ----- Properties of the statistics -----

  /** The mean respects any common bounds of the values. */
  lemma MeanWithinBounds(xs: seq<real>, lo: real, hi: real)
    requires xs != []
    requires forall i :: 0 <= i < |xs| ==> lo <= xs[i] <= hi
    ensures lo <= Mean(xs) <= hi
  {
    SumBounds(xs, lo, hi);
  }

  /** The mean lies between the smallest and the largest value: some value
      is at most the mean and some value is at least it. */
  lemma MeanBetweenExtremes(xs: seq<real>)
    requires xs != []
    ensures exists i :: 0 <= i < |xs| && xs[i] <= Mean(xs)
    ensures exists j :: 0 <= j < |xs| && Mean(xs) <= xs[j]
  {
    var m := Mean(xs);
    var n := |xs| as real;
    assert n * m == Sum(xs);
    if forall i :: 0 <= i < |xs| ==> m < xs[i] {
      SumAbove(xs, m);
      assert false;
    }
    if forall j :: 0 <= j < |xs| ==> xs[j] < m {
      SumBelow(xs, m);
      assert false;
    }
  }

  /** Win, draw and loss scores give a win rate between 0 and 1. */
  lemma WinrateInRange(results: seq<real>)
    requires forall i :: 0 <= i < |results| ==> results[i] in {0.0, 0.5, 1.0}
    ensures 0.0 <= CalculateWinrate(results) <= 1.0
  {
    if results != [] {
      MeanWithinBounds(results, 0.0, 1.0);
    }
  }

  /** The order in which the games finished does not change the win rate. */
  lemma WinrateOrderIndependent(xs: seq<real>, ys: seq<real>)
    requires multiset(xs) == multiset(ys)
    ensures CalculateWinrate(xs) == CalculateWinrate(ys)
  {
    SumPermutation(xs, ys);
    assert |xs| == |multiset(xs)| == |multiset(ys)| == |ys|;
  }

  /** Squared deviations make the sample variance non-negative. */
  lemma SampleVarianceNonNegative(xs: seq<real>)
    requires |xs| > 1
    ensures SampleVariance(xs) >= 0.0
  {
    var m := Mean(xs);
    var sq := seq(|xs|, i requires 0 <= i < |xs| => (xs[i] - m) * (xs[i] - m));
    forall i | 0 <= i < |sq|
      ensures 0.0 <= sq[i]
    {
      var d := xs[i] - m;
      assert sq[i] == d * d;
      if d < 0.0 {
        assert d * d == (-d) * (-d);
      }
    }
    SumNonNegative(sq);
  }
}
