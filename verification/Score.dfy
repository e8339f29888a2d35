/** The weighted improvement score (common/project/project.go). Lower metrics are better; metrics of
which more is better arrive negated. Numbers are real, so rounding is not modelled. */
module Score {
  import opened Measurements

  predicate SameSign(x: real, y: real) {
    (x > 0.0 && y > 0.0) || (x < 0.0 && y < 0.0)
  }

  /** How much a metric improved on its base, in percent. */
  function ImproveRate(base: real, current: real): real
    requires SameSign(base, current)
  {
    if base > 0.0 then
      if current > base then (base - current) / base * 100.0 else (base - current) / current * 100.0
    else if current > base then (current - base) / current * 100.0
    else (current - base) / base * 100.0
  }

  lemma DivideByPositive(x: real, y: real, d: real)
    requires d > 0.0 && x < y
    ensures x / d < y / d
  {
  }

  lemma NegatedQuotient(x: real, d: real)
    requires d != 0.0
    ensures x / -d == -(x / d)
  {
  }

  /** For a metric of which more is better the rate is the opposite of that of its negation. */
  lemma Mirror(base: real, current: real)
    requires base > 0.0 && current > 0.0
    ensures ImproveRate(-base, -current) == -ImproveRate(base, current)
  {
    NegatedQuotient(base - current, base);
    NegatedQuotient(base - current, current);
    assert -current - -base == base - current;
  }

  lemma QuotientsCross(b: real, x: real, y: real)
    requires 0.0 < x < y && b > 0.0
    ensures (b - x) / x > (b - y) / y
  {
    assert b * x < b * y;
    var p, q := (b - x) / x, (b - y) / y;
    assert p * x == b - x && q * y == b - y;
    if p <= q {
      assert (p + 1.0) * x == b && (q + 1.0) * y == b;
      Grows(p + 1.0, q + 1.0, x, y);
    }
  }

  lemma Grows(p: real, q: real, x: real, y: real)
    requires 0.0 < x < y && p * x > 0.0
    ensures p <= q ==> p * x < q * y
  {
    if p <= q {
      assert p > 0.0;
      assert p * x < p * y;
      assert p * y <= q * y;
    }
  }

  lemma PositiveRateDecreases(base: real, x: real, y: real)
    requires base > 0.0 && 0.0 < x < y
    ensures ImproveRate(base, x) > ImproveRate(base, y)
  {
    if y <= base {
      QuotientsCross(base, x, y);
    } else if x > base {
      DivideByPositive(base - y, base - x, base);
    } else {
      assert (base - x) / x >= 0.0;
      assert (base - y) / base < 0.0;
    }
  }

  /** The rate falls strictly as the metric grows. */
  lemma RateDecreases(base: real, x: real, y: real)
    requires SameSign(base, x) && SameSign(base, y) && x < y
    ensures ImproveRate(base, x) > ImproveRate(base, y)
  {
    if base > 0.0 {
      PositiveRateDecreases(base, x, y);
    } else {
      PositiveRateDecreases(-base, -y, -x);
      Mirror(-base, -x);
      Mirror(-base, -y);
    }
  }

  /** Base and current value exchanged give the opposite rate. */
  lemma RateSwaps(base: real, current: real)
    requires SameSign(base, current)
    ensures ImproveRate(current, base) == -ImproveRate(base, current)
  {
    if base > 0.0 {
      PositiveRateSwaps(base, current);
    } else {
      PositiveRateSwaps(-base, -current);
      Mirror(-base, -current);
      Mirror(-current, -base);
    }
  }

  lemma PositiveRateSwaps(base: real, current: real)
    requires base > 0.0 && current > 0.0
    ensures ImproveRate(current, base) == -ImproveRate(base, current)
  {
    Opposite(base - current, base);
    Opposite(base - current, current);
    assert -(base - current) == current - base;
  }

  lemma Opposite(x: real, d: real)
    requires d != 0.0
    ensures -x / d == -(x / d)
  {
  }

  /** A metric that is worse than its base by some percent of it loses as many percent. */
  lemma RateIsRelative(base: real, percent: real)
    requires base > 0.0 && percent >= 0.0
    ensures base * (1.0 + percent / 100.0) > 0.0
    ensures ImproveRate(base, base * (1.0 + percent / 100.0)) == -percent
  {
    var part := percent / 100.0;
    assert base * part >= 0.0;
    assert base * (1.0 + part) == base + base * part;
    QuotientOfProduct(-part, base);
    assert base - (base + base * part) == -part * base;
  }

  lemma QuotientOfProduct(x: real, d: real)
    requires d != 0.0
    ensures x * d / d == x
  {
  }

  // ---- the score of several metrics ----

  ghost predicate Comparable(bases: seq<real>, currents: seq<real>, weights: seq<real>) {
    && |bases| == |currents| == |weights|
    && forall i :: 0 <= i < |bases| ==> SameSign(bases[i], currents[i]) && weights[i] >= 0.0
  }

  function Gain(base: real, current: real, weight: real): real
    requires SameSign(base, current)
  {
    ImproveRate(base, current) * weight / 100.0
  }

  function WeightedRates(bases: seq<real>, currents: seq<real>, weights: seq<real>, n: nat): real
    requires n <= |bases| == |currents| == |weights|
    requires forall i :: 0 <= i < n ==> SameSign(bases[i], currents[i])
  {
    if n == 0 then 0.0
    else WeightedRates(bases, currents, weights, n - 1) + Gain(bases[n - 1], currents[n - 1], weights[n - 1])
  }

  class YamlPrjCli {
    const weights: seq<real>
    var evalBase: seq<real>
    var evalCurrent: seq<real>

    ghost predicate Valid()
      reads this
    {
      Comparable(evalBase, evalCurrent, weights)
    }

    constructor (weights: seq<real>, bases: seq<real>, currents: seq<real>)
      requires Comparable(bases, currents, weights)
      ensures Valid() && this.weights == weights && evalBase == bases && evalCurrent == currents
    {
      this.weights, evalBase, evalCurrent := weights, bases, currents;
    }

    /** A single metric is its own score. */
    method CalculateBenchMark() returns (score: real)
      requires Valid()
      ensures score == Total(evalBase, evalCurrent, weights)
    {
      if |evalCurrent| == 1 {
        return evalCurrent[0];
      }
      var sum := 0.0;
      for i := 0 to |weights|
        invariant sum == WeightedRates(evalBase, evalCurrent, weights, i)
      {
        sum := sum + ImproveRate(evalBase[i], evalCurrent[i]) * weights[i] / 100.0;
      }
      return -sum;
    }
  }

  function Total(bases: seq<real>, currents: seq<real>, weights: seq<real>): real
    requires Comparable(bases, currents, weights)
  {
    if |currents| == 1 then currents[0] else -WeightedRates(bases, currents, weights, |bases|)
  }

  /** A percentage of a sum of weights. */
  function Part(percent: real, weight: real): real {
    percent * weight / 100.0
  }

  lemma GainIsPart(base: real, current: real, weight: real)
    requires SameSign(base, current)
    ensures Gain(base, current, weight) == Part(ImproveRate(base, current), weight)
  {
  }

  lemma PartGrows(x: real, y: real, w: real)
    requires x <= y && w >= 0.0
    ensures Part(x, w) <= Part(y, w) && (x < y && w > 0.0 ==> Part(x, w) < Part(y, w))
  {
  }

  lemma GainFalls(base: real, x: real, y: real, w: real)
    requires SameSign(base, x) && SameSign(base, y) && x <= y && w >= 0.0
    ensures Gain(base, x, w) >= Gain(base, y, w)
    ensures x < y && w > 0.0 ==> Gain(base, x, w) > Gain(base, y, w)
  {
    if x < y {
      RateDecreases(base, x, y);
    }
    PartGrows(ImproveRate(base, y), ImproveRate(base, x), w);
    GainIsPart(base, x, w);
    GainIsPart(base, y, w);
  }

  lemma {:induction false} WeightedRatesFall(bases: seq<real>, x: seq<real>, y: seq<real>, weights: seq<real>, n: nat)
    requires Comparable(bases, x, weights) && Comparable(bases, y, weights) && n <= |bases|
    requires forall i :: 0 <= i < n ==> x[i] <= y[i]
    ensures WeightedRates(bases, x, weights, n) >= WeightedRates(bases, y, weights, n)
    ensures (exists i :: 0 <= i < n && x[i] < y[i] && weights[i] > 0.0) ==>
      WeightedRates(bases, x, weights, n) > WeightedRates(bases, y, weights, n)
  {
    if n > 0 {
      WeightedRatesFall(bases, x, y, weights, n - 1);
      GainFalls(bases[n - 1], x[n - 1], y[n - 1], weights[n - 1]);
    }
  }

  /** Metrics that are all at least as good give a score at least as good, and a better one if some
  metric with weight is better. */
  lemma ScoreIsMonotone(bases: seq<real>, x: seq<real>, y: seq<real>, weights: seq<real>)
    requires Comparable(bases, x, weights) && Comparable(bases, y, weights)
    requires forall i :: 0 <= i < |bases| ==> x[i] <= y[i]
    ensures Total(bases, x, weights) <= Total(bases, y, weights)
    ensures (exists i :: 0 <= i < |bases| && x[i] < y[i] && weights[i] > 0.0) ==>
      Total(bases, x, weights) < Total(bases, y, weights)
  {
    WeightedRatesFall(bases, x, y, weights, |bases|);
  }

  lemma PartOfSum(percent: real, x: real, y: real)
    ensures Part(percent, x + y) == Part(percent, x) + Part(percent, y)
  {
    assert percent * (x + y) == percent * x + percent * y;
  }

  lemma {:induction false} UniformRates(bases: seq<real>, currents: seq<real>, weights: seq<real>, percent: real, n: nat)
    requires Comparable(bases, currents, weights) && n <= |bases|
    requires forall i :: 0 <= i < n ==> ImproveRate(bases[i], currents[i]) == percent
    ensures WeightedRates(bases, currents, weights, n) == Part(percent, Sum(weights[..n]))
  {
    if n > 0 {
      var front := weights[..n - 1];
      UniformRates(bases, currents, weights, percent, n - 1);
      assert weights[..n] == front + [weights[n - 1]];
      SumConcat(front, [weights[n - 1]]);
      SumOne(weights[n - 1]);
      PartOfSum(percent, Sum(front), weights[n - 1]);
      GainIsPart(bases[n - 1], currents[n - 1], weights[n - 1]);
    }
  }

  /** If every metric improved by the same percentage and the weights add up to a hundred, that is the
  score, negated. */
  lemma UniformScore(bases: seq<real>, currents: seq<real>, weights: seq<real>, percent: real)
    requires Comparable(bases, currents, weights) && |bases| != 1 && Sum(weights) == 100.0
    requires forall i :: 0 <= i < |bases| ==> ImproveRate(bases[i], currents[i]) == percent
    ensures Total(bases, currents, weights) == -percent
  {
    UniformRates(bases, currents, weights, percent, |bases|);
    assert weights[..|bases|] == weights;
    QuotientOfProduct(percent, 100.0);
  }

  lemma GainSwaps(base: real, current: real, w: real)
    requires SameSign(base, current)
    ensures Gain(current, base, w) == -Gain(base, current, w)
  {
    RateSwaps(base, current);
    var rate := ImproveRate(base, current);
    assert -rate * w == -(rate * w);
    Opposite(rate * w, 100.0);
  }

  lemma {:induction false} WeightedRatesSwap(bases: seq<real>, x: seq<real>, weights: seq<real>, n: nat)
    requires Comparable(bases, x, weights) && Comparable(x, bases, weights) && n <= |bases|
    ensures WeightedRates(x, bases, weights, n) == -WeightedRates(bases, x, weights, n)
  {
    if n > 0 {
      WeightedRatesSwap(bases, x, weights, n - 1);
      GainSwaps(bases[n - 1], x[n - 1], weights[n - 1]);
    }
  }

  /** Of two results, each scored against the other, one gains what the other loses. */
  lemma ScoreSwaps(bases: seq<real>, x: seq<real>, weights: seq<real>)
    requires Comparable(bases, x, weights) && Comparable(x, bases, weights) && |bases| != 1
    ensures Total(x, bases, weights) == -Total(bases, x, weights)
  {
    WeightedRatesSwap(bases, x, weights, |bases|);
  }
}
