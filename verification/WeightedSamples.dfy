/**
  Statistics of weighted samples in exact arithmetic: the mean, the spread about it, and
  the number of equally weighted samples that the weights are worth.
 */
module WeightedSamples {
  datatype Sample = Sample(value: real, weight: real)

  function Sq(x: real): (r: real)
    ensures r >= 0.0 && (r > 0.0 <==> x != 0.0)
  {
    SquareIsPositive(x, x * x);
    x * x
  }

  lemma SquareIsPositive(x: real, square: real)
    requires square == x * x
    ensures square >= 0.0 && (square > 0.0 <==> x != 0.0)
  {
    if x > 0.0 {
      ProductIsPositive(x, x, square);
    } else if x < 0.0 {
      ProductIsPositive(-x, -x, square);
    }
  }

  lemma ProductIsPositive(a: real, b: real, product: real)
    requires a > 0.0 && b > 0.0 && product == a * b
    ensures product > 0.0
  {
  }

  // ---------- Sums ----------

  function Sum(w: seq<real>): real
  {
    if w == [] then 0.0 else Sum(w[..|w| - 1]) + w[|w| - 1]
  }

  function SumOfSquares(w: seq<real>): real
  {
    if w == [] then 0.0 else SumOfSquares(w[..|w| - 1]) + Sq(w[|w| - 1])
  }

  function Weights(s: seq<Sample>): (w: seq<real>)
    ensures |w| == |s| && forall i :: 0 <= i < |s| ==> w[i] == s[i].weight
  {
    seq(|s|, i requires 0 <= i < |s| => s[i].weight)
  }

  function Total(s: seq<Sample>): real
  {
    if s == [] then 0.0 else Total(s[..|s| - 1]) + s[|s| - 1].weight
  }

  function Moment(s: seq<Sample>): real
  {
    if s == [] then 0.0 else Moment(s[..|s| - 1]) + s[|s| - 1].value * s[|s| - 1].weight
  }

  function Spread(s: seq<Sample>, mean: real): real
  {
    if s == [] then 0.0
    else
      var v, w := s[|s| - 1].value, s[|s| - 1].weight;
      Spread(s[..|s| - 1], mean) + w * Sq(v - mean)
  }

  // ---------- The statistics ----------

  function EffectiveN(w: seq<real>): real
  {
    if w == [] then 0.0
    else if SumOfSquares(w) <= 0.0 then 0.0
    else Sq(Sum(w)) / SumOfSquares(w)
  }

  function WeightedMean(s: seq<Sample>): real
  {
    if Total(s) <= 0.0 then 0.0 else Moment(s) / Total(s)
  }

  function WeightedVariance(s: seq<Sample>, mean: real): real
  {
    if Total(s) <= 0.0 then 0.0 else Spread(s, mean) / Total(s)
  }

  ghost predicate AllPositive(w: seq<real>)
  {
    forall i :: 0 <= i < |w| ==> w[i] > 0.0
  }

  ghost predicate AllEqual(w: seq<real>)
  {
    forall i :: 0 <= i < |w| ==> w[i] == w[0]
  }

  ghost predicate Within(s: seq<Sample>, low: real, high: real)
  {
    forall i :: 0 <= i < |s| ==> low <= s[i].value <= high
  }

  // ---------- Effective sample size ----------

  lemma SumsGrow(w: seq<real>, x: real)
    ensures Sum(w + [x]) == Sum(w) + x && SumOfSquares(w + [x]) == SumOfSquares(w) + Sq(x)
  {
    assert (w + [x])[..|w|] == w;
  }

  lemma OneTerm(w: seq<real>)
    requires |w| == 1
    ensures Sum(w) == w[0] && SumOfSquares(w) == Sq(w[0]) && AllEqual(w)
  {
  }

  lemma {:induction false} SumsArePositive(w: seq<real>)
    requires w != [] && AllPositive(w)
    ensures Sum(w) > 0.0 && SumOfSquares(w) > 0.0
    decreases |w|
  {
    hide Sum, SumOfSquares, Sq;
    if |w| == 1 {
      OneTerm(w);
    } else {
      var init, x := w[..|w| - 1], w[|w| - 1];
      assert w == init + [x];
      SumsArePositive(init);
      SumsGrow(init, x);
    }
  }

  // The square of the sum is at least the sum of squares, and more if there are two terms.
  lemma {:induction false} SumSquaredExceeds(w: seq<real>)
    requires w != [] && AllPositive(w)
    ensures Sq(Sum(w)) >= SumOfSquares(w)
    ensures Sq(Sum(w)) == SumOfSquares(w) <==> |w| == 1
    decreases |w|
  {
    hide Sum, SumOfSquares, Sq;
    if |w| == 1 {
      OneTerm(w);
    } else {
      var init, x := w[..|w| - 1], w[|w| - 1];
      assert w == init + [x];
      SumSquaredExceeds(init);
      SumsArePositive(init);
      SumsGrow(init, x);
      SquareOfSum(Sum(init), x);
    }
  }

  lemma SquareOfSum(a: real, x: real)
    requires a > 0.0 && x > 0.0
    ensures Sq(a + x) > Sq(a) + Sq(x)
  {
    assert a * x > 0.0;
    assert (a + x) * (a + x) == a * a + 2.0 * (a * x) + x * x;
  }

  // Cauchy-Schwarz, with equality for equal terms only.
  lemma {:induction false} CauchySchwarz(w: seq<real>)
    requires w != []
    ensures (|w| as real) * SumOfSquares(w) >= Sq(Sum(w))
    ensures (|w| as real) * SumOfSquares(w) == Sq(Sum(w)) <==> AllEqual(w)
    ensures AllEqual(w) ==> Sum(w) == (|w| as real) * w[0]
    decreases |w|
  {
    hide Sum, SumOfSquares, AllEqual, Sq;
    if |w| == 1 {
      OneTerm(w);
    } else {
      var init, x := w[..|w| - 1], w[|w| - 1];
      assert w == init + [x];
      CauchySchwarz(init);
      SumsGrow(init, x);
      AllEqualGrows(init, x);
      CauchySchwarzStep(|init| as real, Sum(init), SumOfSquares(init), x, init[0], AllEqual(init));
    }
  }

  lemma AllEqualGrows(w: seq<real>, x: real)
    requires w != []
    ensures AllEqual(w + [x]) <==> AllEqual(w) && x == w[0]
  {
    var v := w + [x];
    if AllEqual(v) {
      assert v[|w|] == v[0];
      assert forall i :: 0 <= i < |w| ==> w[i] == v[i];
    }
  }

  // One more term x for n terms with the sum `a` and the sum of squares `q`.
  lemma CauchySchwarzStep(n: real, a: real, q: real, x: real, first: real, equal: bool)
    requires n >= 1.0 && n * q >= Sq(a) && (n * q == Sq(a) <==> equal) && (equal ==> a == n * first)
    ensures (n + 1.0) * (q + Sq(x)) >= Sq(a + x)
    ensures (n + 1.0) * (q + Sq(x)) == Sq(a + x) <==> equal && x == first
    ensures equal && x == first ==> a + x == (n + 1.0) * first
  {
    var gap := q + n * Sq(x) - 2.0 * (a * x);
    Grown(n, a, q, x);
    hide Sq;
    Quotient(n, gap);
    if equal {
      assert n * (first - x) == a - n * x by { Share(n, first, -x); }
      Quotient(n, first - x);
    }
  }

  lemma Grown(n: real, a: real, q: real, x: real)
    ensures var gap := q + n * Sq(x) - 2.0 * (a * x);
            && (n + 1.0) * (q + Sq(x)) - Sq(a + x) == (n * q - Sq(a)) + gap
            && n * gap == (n * q - Sq(a)) + Sq(a - n * x)
  {
    assert (n + 1.0) * (q + x * x) == n * q + q + n * (x * x) + x * x;
    assert (a + x) * (a + x) == a * a + 2.0 * (a * x) + x * x;
    assert n * (q + n * (x * x) - 2.0 * (a * x)) == (n * q - a * a) + (a - n * x) * (a - n * x);
  }

  lemma Quotient(n: real, x: real)
    requires n > 0.0
    ensures n * x >= 0.0 <==> x >= 0.0
    ensures n * x <= 0.0 <==> x <= 0.0
  {
    if x < 0.0 {
      assert n * (-x) > 0.0;
      assert n * x + n * (-x) == 0.0;
    }
  }

  // The effective size of n positive weights lies between 1 and n; it is 1 only for a
  // single weight, and n only for equal weights.
  lemma EffectiveNIsBounded(w: seq<real>)
    requires w != [] && AllPositive(w)
    ensures 1.0 <= EffectiveN(w) <= |w| as real
    ensures EffectiveN(w) == 1.0 <==> |w| == 1
    ensures EffectiveN(w) == |w| as real <==> AllEqual(w)
  {
    hide Sum, SumOfSquares, Sq;
    SumsArePositive(w);
    SumSquaredExceeds(w);
    CauchySchwarz(w);
    Ratio(Sq(Sum(w)), SumOfSquares(w), 1.0);
    Ratio(Sq(Sum(w)), SumOfSquares(w), |w| as real);
  }

  lemma Ratio(a: real, b: real, k: real)
    requires b > 0.0
    ensures a / b <= k <==> a <= k * b
    ensures a / b >= k <==> a >= k * b
    ensures a / b == k <==> a == k * b
  {
    assert a == (a / b) * b;
    var d := a / b - k;
    assert a - k * b == d * b;
  }

  // ---------- Mean and variance ----------

  lemma {:induction false} TotalIsSum(s: seq<Sample>)
    ensures Total(s) == Sum(Weights(s))
    decreases |s|
  {
    if s != [] {
      TotalIsSum(s[..|s| - 1]);
      assert Weights(s)[..|s| - 1] == Weights(s[..|s| - 1]);
    }
  }

  lemma EmptySums(mean: real)
    ensures Spread([], mean) == Moment([]) == Total([]) == 0.0
  {
  }

  lemma LastTerm(s: seq<Sample>, mean: real)
    requires s != []
    ensures var init, v, w := s[..|s| - 1], s[|s| - 1].value, s[|s| - 1].weight;
            && Spread(s, mean) == Spread(init, mean) + w * Sq(v - mean)
            && Moment(s) == Moment(init) + v * w && Total(s) == Total(init) + w
  {
  }

  lemma {:induction false} MomentBounds(s: seq<Sample>, low: real, high: real)
    requires AllPositive(Weights(s)) && Within(s, low, high)
    ensures low * Total(s) <= Moment(s) <= high * Total(s)
    decreases |s|
  {
    hide Moment, Total, Spread;
    if s == [] {
      EmptySums(0.0);
    } else {
      var init, last := s[..|s| - 1], s[|s| - 1];
      assert Weights(s)[|s| - 1] > 0.0;
      MomentBounds(init, low, high);
      LastTerm(s, 0.0);
      Scale(low, last.value, last.weight);
      Scale(last.value, high, last.weight);
      Share(low, Total(init), last.weight);
      Share(high, Total(init), last.weight);
    }
  }

  lemma Share(a: real, t: real, w: real)
    ensures a * (t + w) == a * t + a * w
  {
  }

  lemma Scale(a: real, b: real, w: real)
    requires a <= b && w >= 0.0
    ensures a * w <= b * w
  {
    assert (b - a) * w >= 0.0;
    assert (b - a) * w == b * w - a * w;
  }

  // The mean lies between the bounds of the values.
  lemma MeanIsWithin(s: seq<Sample>, low: real, high: real)
    requires s != [] && AllPositive(Weights(s)) && Within(s, low, high)
    ensures Total(s) > 0.0 && low <= WeightedMean(s) <= high
  {
    hide Total, Moment, Sum;
    SumsArePositive(Weights(s));
    TotalIsSum(s);
    MomentBounds(s, low, high);
    Ratio(Moment(s), Total(s), low);
    Ratio(Moment(s), Total(s), high);
  }

  // The mean is the one value about which the weighted deviations cancel ...
  function Imbalance(s: seq<Sample>, x: real): real
  {
    if s == [] then 0.0 else Imbalance(s[..|s| - 1], x) + s[|s| - 1].weight * (s[|s| - 1].value - x)
  }

  lemma {:induction false} ImbalanceIs(s: seq<Sample>, x: real)
    ensures Imbalance(s, x) == Moment(s) - x * Total(s)
    decreases |s|
  {
    hide Moment, Total, Spread, Sq;
    if s == [] {
      EmptySums(x);
    } else {
      var init, last := s[..|s| - 1], s[|s| - 1];
      ImbalanceIs(init, x);
      LastTerm(s, x);
      Share(x, Total(init), last.weight);
      Deviates(last.weight, last.value, x);
    }
  }

  lemma Deviates(w: real, v: real, x: real)
    ensures w * (v - x) == v * w - x * w
  {
  }

  lemma MeanBalances(s: seq<Sample>, x: real)
    requires s != [] && AllPositive(Weights(s))
    ensures x == WeightedMean(s) <==> Imbalance(s, x) == 0.0
  {
    hide Total, Moment, Sum, Imbalance;
    SumsArePositive(Weights(s));
    TotalIsSum(s);
    ImbalanceIs(s, x);
    Ratio(Moment(s), Total(s), x);
  }

  // ... and the one about which they spread least.
  lemma MeanSpreadsLeast(s: seq<Sample>, x: real)
    requires s != [] && AllPositive(Weights(s))
    ensures Spread(s, WeightedMean(s)) <= Spread(s, x)
    ensures Spread(s, WeightedMean(s)) == Spread(s, x) <==> x == WeightedMean(s)
  {
    hide Total, Moment, Sum, Imbalance, Spread, Sq;
    var mean := WeightedMean(s);
    SumsArePositive(Weights(s));
    TotalIsSum(s);
    ImbalanceIs(s, mean);
    Ratio(Moment(s), Total(s), mean);
    SpreadAbout(s, mean, x);
    ProductWithZero(x - mean, Imbalance(s, mean));
    Quotient(Total(s), Sq(x - mean));
  }

  lemma ProductWithZero(a: real, b: real)
    requires b == 0.0
    ensures a * b == 0.0
  {
  }

  lemma {:induction false} SpreadAbout(s: seq<Sample>, mean: real, x: real)
    ensures Spread(s, x) == Spread(s, mean) - 2.0 * ((x - mean) * Imbalance(s, mean)) + Total(s) * Sq(x - mean)
    decreases |s|
  {
    hide Moment, Total, Spread, Sq;
    if s == [] {
      EmptySums(x);
      EmptySums(mean);
    } else {
      var init, last := s[..|s| - 1], s[|s| - 1];
      SpreadAbout(init, mean, x);
      LastTerm(s, x);
      LastTerm(s, mean);
      var dev := last.weight * (last.value - mean);
      Share(x - mean, Imbalance(init, mean), dev);
      Share(Sq(x - mean), Total(init), last.weight);
      OneSpread(last.weight, last.value, mean, x);
      assert Imbalance(s, mean) == Imbalance(init, mean) + dev;
    }
  }

  lemma OneSpread(w: real, v: real, mean: real, x: real)
    ensures w * Sq(v - x) == w * Sq(v - mean) - 2.0 * ((x - mean) * (w * (v - mean))) + w * Sq(x - mean)
  {
  }

  // What (high - value)(value - low) would leave of the spread, for values with this moment and total.
  function Chord(mean: real, low: real, high: real, moment: real, total: real): real
  {
    (high + low - 2.0 * mean) * moment + (mean * mean - high * low) * total
  }

  lemma ChordAdds(mean: real, low: real, high: real, m: real, t: real, dm: real, dt: real)
    ensures Chord(mean, low, high, m + dm, t + dt) == Chord(mean, low, high, m, t) + Chord(mean, low, high, dm, dt)
  {
    var a, b := high + low - 2.0 * mean, mean * mean - high * low;
    Share(a, m, dm);
    Share(b, t, dt);
  }

  lemma {:induction false} SpreadBounds(s: seq<Sample>, mean: real, low: real, high: real)
    requires AllPositive(Weights(s)) && Within(s, low, high)
    ensures 0.0 <= Spread(s, mean) <= Chord(mean, low, high, Moment(s), Total(s))
    decreases |s|
  {
    hide Spread, Moment, Total, Sq, Chord;
    if s == [] {
      EmptySums(mean);
      EmptyChord(mean, low, high);
    } else {
      var init, last := s[..|s| - 1], s[|s| - 1];
      assert Weights(s)[|s| - 1] > 0.0;
      SpreadBounds(init, mean, low, high);
      TermBound(last.value, last.weight, mean, low, high);
      LastTerm(s, mean);
      ChordAdds(mean, low, high, Moment(init), Total(init), last.value * last.weight, last.weight);
    }
  }

  lemma EmptyChord(mean: real, low: real, high: real)
    ensures Chord(mean, low, high, 0.0, 0.0) == 0.0
  {
  }

  lemma TermBound(v: real, w: real, mean: real, low: real, high: real)
    requires w > 0.0 && low <= v <= high
    ensures 0.0 <= w * Sq(v - mean) <= Chord(mean, low, high, v * w, w)
  {
    var a, b := high + low - 2.0 * mean, mean * mean - high * low;
    SquareWithin(v, mean, low, high);
    hide Sq;
    Scale(Sq(v - mean), a * v + b, w);
    Scale(0.0, Sq(v - mean), w);
    Distribute(a, v, b, w);
  }

  lemma SquareWithin(v: real, mean: real, low: real, high: real)
    requires low <= v <= high
    ensures Sq(v - mean) <= (high + low - 2.0 * mean) * v + (mean * mean - high * low)
  {
    Scale(0.0, high - v, v - low);
    SquareExpands(v, mean, low, high);
  }

  lemma SquareExpands(v: real, mean: real, low: real, high: real)
    ensures Sq(v - mean) == (high + low - 2.0 * mean) * v + (mean * mean - high * low) - (high - v) * (v - low)
  {
  }

  lemma Distribute(a: real, v: real, b: real, w: real)
    ensures (a * v + b) * w == a * (v * w) + b * w
  {
  }

  // The variance is at most (high - mean)(mean - low), which is at most a quarter of the
  // squared width.
  lemma VarianceIsBounded(s: seq<Sample>, low: real, high: real)
    requires s != [] && AllPositive(Weights(s)) && Within(s, low, high)
    ensures var mean := WeightedMean(s); var variance := WeightedVariance(s, mean);
            && 0.0 <= variance <= (high - mean) * (mean - low)
            && 4.0 * variance <= Sq(high - low)
  {
    hide Total, Moment, Spread, Sum, Sq, Chord;
    var mean := WeightedMean(s);
    MeanIsWithin(s, low, high);
    SpreadBounds(s, mean, low, high);
    Ratio(Moment(s), Total(s), mean);
    VarianceStep(Spread(s, mean), Moment(s), Total(s), mean, low, high);
    Quarter(high, low, mean);
  }

  lemma VarianceStep(spread: real, moment: real, total: real, mean: real, low: real, high: real)
    requires total > 0.0 && spread >= 0.0 && moment == mean * total
    requires spread <= Chord(mean, low, high, moment, total)
    ensures 0.0 <= spread / total <= (high - mean) * (mean - low)
  {
    Factor(high, low, mean, total);
    Ratio(spread, total, (high - mean) * (mean - low));
    Ratio(spread, total, 0.0);
  }

  lemma Factor(high: real, low: real, mean: real, t: real)
    ensures (high + low - 2.0 * mean) * (mean * t) + (mean * mean - high * low) * t == ((high - mean) * (mean - low)) * t
  {
  }

  lemma Quarter(high: real, low: real, mean: real)
    ensures 4.0 * ((high - mean) * (mean - low)) <= Sq(high - low)
  {
    var d := (high - mean) - (mean - low);
    assert Sq(d) >= 0.0;
    assert (high - low) * (high - low) == d * d + 4.0 * ((high - mean) * (mean - low));
  }
}
