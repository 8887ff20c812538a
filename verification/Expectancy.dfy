/**
  The expected paper return of a candidate: a prior and the audited returns of similar
  candidates, weighted by similarity. Exact arithmetic; `exp` and `sqrt` are given.
 */
module Expectancy {
  import opened Limits
  import opened WeightedSamples

  // ---------- Records ----------

  // The numbers and tags of a scanned row that the estimate reads.
  datatype Candidate = Candidate(ticker: string, score: real, gapPct: real, floatRotationPct: real,
                                 rangePositionPct: real, dataQuality: real, signature: string, tier: string,
                                 exitBias: string, riskFlags: nat, avoided: bool)
  datatype Audit = Audit(ticker: string, lunchReturn: real, closeReturn: real)
  datatype Exit = Close | Lunch | Blend
  datatype Tier = Exploratory | Sparse | Early | Moderate | High
  datatype Estimate = Estimate(expected: real, deviation: real, lower: real, upper: real, confidence: real,
                               winProbability: real, downside: real, sampleSize: nat, effectiveSize: real, tier: Tier)

  // ---------- Given functions ----------

  ghost predicate Exponential(exp: real -> real)
  {
    && exp(0.0) == 1.0 && (forall x :: exp(x) > 0.0)
    && forall x, y :: x <= y ==> exp(x) <= exp(y)
  }

  ghost predicate SquareRoot(sqrt: real -> real)
  {
    forall x :: x >= 0.0 ==> sqrt(x) >= 0.0 && Sq(sqrt(x)) == x
  }

  // ---------- One sample ----------

  function TargetExit(c: Candidate): Exit
  {
    if c.exitBias == "trail_to_close" then Close
    else if c.exitBias == "lunch" then Lunch
    else Blend
  }

  function TargetReturn(a: Audit, exit: Exit): real
  {
    match exit
    case Close => a.closeReturn
    case Lunch => a.lunchReturn
    case Blend => (a.lunchReturn + a.closeReturn) / 2.0
  }

  function LiquidityEdge(tier: string): real
  {
    if tier == "high_liquidity" then 0.8
    else if tier == "watchable_liquidity" then 0.25
    else if tier == "thin_liquidity" then -0.75
    else if tier == "illiquid" then -1.5
    else 0.0
  }

  function PriorReturn(c: Candidate): real
  {
    Clamp((c.score - 50.0) * 0.08 + (c.rangePositionPct - 50.0) * 0.025 + (c.dataQuality - 6.0) * 0.20
          + LiquidityEdge(c.tier) - 0.75 * c.riskFlags as real - if c.avoided then 2.5 else 0.0,
          -8.0, 8.0)
  }

  function Product(a: real, b: real, c: real, d: real, e: real): real
  {
    a * b * c * d * e
  }

  function SimilarityWeight(c: Candidate, audited: Candidate, exp: real -> real): real
  {
    Max(Product(exp(-Abs(c.score - audited.score) / 28.0),
                exp(-Abs(c.gapPct - audited.gapPct) / 130.0),
                exp(-Abs(c.floatRotationPct - audited.floatRotationPct) / 18.0),
                if c.signature == audited.signature then 1.35 else 0.85,
                if c.tier == audited.tier then 1.15 else 0.95),
        0.05)
  }

  function AuditSample(c: Candidate, a: Audit, audited: Candidate, exp: real -> real): Sample
  {
    var weight := SimilarityWeight(c, audited, exp);
    Sample(TargetReturn(a, TargetExit(c)), if a.ticker == c.ticker then weight + 6.0 else weight)
  }

  // The prior and one sample for every audit of a scanned candidate.
  function Samples(c: Candidate, audits: seq<Audit>, scanned: map<string, Candidate>, exp: real -> real): (s: seq<Sample>)
    ensures s != []
  {
    if audits == [] then [Sample(PriorReturn(c), 4.0)]
    else
      var earlier, a := Samples(c, audits[..|audits| - 1], scanned, exp), audits[|audits| - 1];
      if a.ticker in scanned then earlier + [AuditSample(c, a, scanned[a.ticker], exp)] else earlier
  }

  // ---------- The estimate ----------

  function Deviation(s: seq<Sample>, sqrt: real -> real): (r: real)
    ensures r >= 6.0
  {
    Max(sqrt(Max(WeightedVariance(s, WeightedMean(s)), 0.0)), 6.0)
  }

  // The root of a number that is at least 1.
  function Root(x: real, sqrt: real -> real): (r: real)
    requires SquareRoot(sqrt) && x >= 1.0
    ensures r >= 1.0
  {
    RootsAreOrdered(1.0, sqrt(x));
    assert Sq(1.0) == 1.0;
    sqrt(x)
  }

  lemma RootsAreOrdered(a: real, b: real)
    requires a >= 0.0 && b >= 0.0 && Sq(a) <= Sq(b)
    ensures a <= b
  {
    if a > b {
      assert a * a - b * b == (a - b) * (a + b);
      ProductIsPositive(a - b, a + b, (a - b) * (a + b));
    }
  }

  // The half width of the band.
  function Margin(deviation: real, totalN: real, count: nat, sqrt: real -> real): real
    requires SquareRoot(sqrt)
  {
    1.645 * (deviation / Root(Max(totalN, 1.0), sqrt)) + 10.0 / Root(Max(count as real, 1.0), sqrt)
  }

  function SampleSizeCap(count: nat): real
  {
    if count == 0 then 18.0
    else if count < 5 then 38.0
    else if count < 20 then 58.0
    else if count < 50 then 74.0
    else 88.0
  }

  function Confidence(c: Candidate, deviation: real, count: nat, effectiveSize: real, exp: real -> real): real
    requires deviation >= 0.0
  {
    Min((0.50 * (1.0 - exp(-effectiveSize / 18.0))
         + 0.20 * Clamp(c.dataQuality / 8.0, 0.0, 1.0)
         + 0.20 * (1.0 / (1.0 + deviation / 14.0))
         + 0.10 * Clamp(c.score / 100.0, 0.0, 1.0)) * 100.0,
        SampleSizeCap(count))
  }

  function ConfidenceTier(confidence: real): Tier
  {
    if confidence < 25.0 then Exploratory
    else if confidence < 40.0 then Sparse
    else if confidence < 60.0 then Early
    else if confidence < 75.0 then Moderate
    else High
  }

  // The weight of the samples with a positive return.
  function Gains(s: seq<Sample>): real
  {
    if s == [] then 0.0
    else Gains(s[..|s| - 1]) + if s[|s| - 1].value > 0.0 then s[|s| - 1].weight else 0.0
  }

  function WinProbability(s: seq<Sample>): real
  {
    if Total(s) <= 0.0 then 0.0 else Gains(s) / Total(s) * 100.0
  }

  // The estimate that follows from the samples, the prior among them.
  function Evaluate(c: Candidate, s: seq<Sample>, exp: real -> real, sqrt: real -> real): Estimate
    requires s != [] && SquareRoot(sqrt)
  {
    var expected, deviation := WeightedMean(s), Deviation(s, sqrt);
    var count, effectiveSize := |s| - 1, EffectiveN(Weights(s[1..]));
    var margin := Margin(deviation, EffectiveN(Weights(s)), count, sqrt);
    var confidence := Confidence(c, deviation, count, effectiveSize, exp);
    Estimate(expected, deviation, expected - margin, expected + margin, confidence, WinProbability(s),
             Abs(Min(expected - margin, 0.0)), count, effectiveSize, ConfidenceTier(confidence))
  }

  method EstimateOne(c: Candidate, audits: seq<Audit>, scanned: map<string, Candidate>, exp: real -> real,
                     sqrt: real -> real) returns (e: Estimate)
    requires SquareRoot(sqrt)
    ensures e == Evaluate(c, Samples(c, audits, scanned, exp), exp, sqrt)
  {
    hide SquareRoot, AuditSample, PriorReturn, WeightedMean, Deviation, Margin, Confidence, ConfidenceTier, WinProbability, EffectiveN;
    var exit := TargetExit(c);
    var weightedReturns := [Sample(PriorReturn(c), 4.0)];
    var empiricalWeights: seq<real> := [];
    var empiricalCount := 0;
    for i := 0 to |audits|
      invariant weightedReturns == Samples(c, audits[..i], scanned, exp)
      invariant empiricalWeights == Weights(weightedReturns[1..])
      invariant empiricalCount == |weightedReturns| - 1
    {
      var a := audits[i];
      assert audits[..i + 1][..i] == audits[..i];
      if a.ticker in scanned {
        var sample := AuditSample(c, a, scanned[a.ticker], exp);
        weightedReturns := weightedReturns + [sample];
        empiricalWeights := empiricalWeights + [sample.weight];
        empiricalCount := empiricalCount + 1;
      }
    }
    assert audits[..|audits|] == audits;
    var expected, deviation := WeightedMean(weightedReturns), Deviation(weightedReturns, sqrt);
    var margin := Margin(deviation, EffectiveN(Weights(weightedReturns)), empiricalCount, sqrt);
    var effectiveSize := EffectiveN(empiricalWeights);
    var confidence := Confidence(c, deviation, empiricalCount, effectiveSize, exp);
    e := Estimate(expected, deviation, expected - margin, expected + margin, confidence,
                  WinProbability(weightedReturns), Abs(Min(expected - margin, 0.0)), empiricalCount, effectiveSize,
                  ConfidenceTier(confidence));
  }

  // ---------- Weights ----------

  lemma Shrinks(x: real, f: real, bound: real)
    requires 0.0 < x <= bound && 0.0 < f <= 1.0
    ensures 0.0 < x * f <= bound
  {
    ProductIsPositive(x, f, x * f);
    assert x * (1.0 - f) >= 0.0;
    assert x * f == x - x * (1.0 - f);
  }

  lemma ExpOfNegative(exp: real -> real, x: real)
    requires Exponential(exp) && x <= 0.0
    ensures 0.0 < exp(x) <= 1.0
  {
    assert exp(x) <= exp(0.0);
  }

  // Similarity alone never outweighs an audit of the same ticker.
  lemma WeightIsBounded(c: Candidate, audited: Candidate, exp: real -> real)
    requires Exponential(exp)
    ensures 0.05 <= SimilarityWeight(c, audited, exp) <= 1.5525
  {
    hide Product, Exponential;
    ExpOfNegative(exp, -Abs(c.score - audited.score) / 28.0);
    ExpOfNegative(exp, -Abs(c.gapPct - audited.gapPct) / 130.0);
    ExpOfNegative(exp, -Abs(c.floatRotationPct - audited.floatRotationPct) / 18.0);
    ProductIsBounded(exp(-Abs(c.score - audited.score) / 28.0), exp(-Abs(c.gapPct - audited.gapPct) / 130.0),
                     exp(-Abs(c.floatRotationPct - audited.floatRotationPct) / 18.0),
                     if c.signature == audited.signature then 1.35 else 0.85,
                     if c.tier == audited.tier then 1.15 else 0.95);
  }

  lemma ProductIsBounded(a: real, b: real, c: real, d: real, e: real)
    requires 0.0 < a <= 1.0 && 0.0 < b <= 1.0 && 0.0 < c <= 1.0 && 0.0 < d <= 1.35 && 0.0 < e <= 1.15
    ensures Product(a, b, c, d, e) <= 1.5525
  {
    Shrinks(a, b, 1.0);
    Shrinks(a * b, c, 1.0);
    Shrinks(d, a * b * c, 1.35);
    Times(a * b * c * d, e);
  }

  lemma Times(x: real, e: real)
    requires x <= 1.35 && 0.0 < e <= 1.15
    ensures x * e <= 1.5525
  {
    Scale(x, 1.35, e);
  }

  lemma SimilarityIsSymmetric(a: Candidate, b: Candidate, exp: real -> real)
    ensures SimilarityWeight(a, b, exp) == SimilarityWeight(b, a, exp)
  {
    assert Abs(a.score - b.score) == Abs(b.score - a.score) && Abs(a.gapPct - b.gapPct) == Abs(b.gapPct - a.gapPct);
    assert Abs(a.floatRotationPct - b.floatRotationPct) == Abs(b.floatRotationPct - a.floatRotationPct);
    hide Product, Abs;
  }

  // No closer in anything: a candidate that is further off never weighs more.
  predicate AsClose(c: Candidate, near: Candidate, far: Candidate)
  {
    && Abs(c.score - near.score) <= Abs(c.score - far.score) && Abs(c.gapPct - near.gapPct) <= Abs(c.gapPct - far.gapPct)
    && Abs(c.floatRotationPct - near.floatRotationPct) <= Abs(c.floatRotationPct - far.floatRotationPct)
    && (c.signature == far.signature ==> c.signature == near.signature) && (c.tier == far.tier ==> c.tier == near.tier)
  }

  lemma CloserWeighsMore(c: Candidate, near: Candidate, far: Candidate, exp: real -> real)
    requires Exponential(exp) && AsClose(c, near, far)
    ensures SimilarityWeight(c, far, exp) <= SimilarityWeight(c, near, exp)
  {
    hide Product, Abs;
    ProductRises(exp(-Abs(c.score - far.score) / 28.0), exp(-Abs(c.score - near.score) / 28.0),
                 exp(-Abs(c.gapPct - far.gapPct) / 130.0), exp(-Abs(c.gapPct - near.gapPct) / 130.0),
                 exp(-Abs(c.floatRotationPct - far.floatRotationPct) / 18.0),
                 exp(-Abs(c.floatRotationPct - near.floatRotationPct) / 18.0),
                 if c.signature == far.signature then 1.35 else 0.85, if c.signature == near.signature then 1.35 else 0.85,
                 if c.tier == far.tier then 1.15 else 0.95, if c.tier == near.tier then 1.15 else 0.95);
  }

  lemma ProductRises(a: real, a': real, b: real, b': real, c: real, c': real, d: real, d': real, e: real, e': real)
    requires 0.0 < a <= a' && 0.0 < b <= b' && 0.0 < c <= c' && 0.0 < d <= d' && 0.0 < e <= e'
    ensures Product(a, b, c, d, e) <= Product(a', b', c', d', e')
  {
    Rises(a, a', b, b');
    Rises(a * b, a' * b', c, c');
    Rises(a * b * c, a' * b' * c', d, d');
    Rises(a * b * c * d, a' * b' * c' * d', e, e');
  }

  lemma Rises(x: real, x': real, y: real, y': real)
    requires 0.0 < x <= x' && 0.0 < y <= y'
    ensures 0.0 < x * y <= x' * y'
  {
    ProductIsPositive(x, y, x * y);
    Scale(x, x', y);
    Scale(y, y', x');
  }

  lemma {:induction false} SamplesArePositive(c: Candidate, audits: seq<Audit>, scanned: map<string, Candidate>,
                                              exp: real -> real)
    requires Exponential(exp)
    ensures AllPositive(Weights(Samples(c, audits, scanned, exp)))
    decreases |audits|
  {
    hide SimilarityWeight, Exponential, PriorReturn, TargetReturn;
    if audits != [] {
      SamplesArePositive(c, audits[..|audits| - 1], scanned, exp);
      var a := audits[|audits| - 1];
      if a.ticker in scanned { WeightIsBounded(c, scanned[a.ticker], exp); }
    }
  }

  // What one difference costs: a candidate just like this one but for one figure or tag.
  // Nothing is discounted below 0.05.
  lemma OneDifference(c: Candidate, d: Candidate, exp: real -> real)
    requires Exponential(exp)
    ensures d == c.(score := d.score) ==> SimilarityWeight(c, d, exp) == Max(1.5525 * exp(-Abs(d.score - c.score) / 28.0), 0.05)
    ensures d == c.(gapPct := d.gapPct) ==> SimilarityWeight(c, d, exp) == Max(1.5525 * exp(-Abs(d.gapPct - c.gapPct) / 130.0), 0.05)
    ensures d == c.(floatRotationPct := d.floatRotationPct) ==>
      SimilarityWeight(c, d, exp) == Max(1.5525 * exp(-Abs(d.floatRotationPct - c.floatRotationPct) / 18.0), 0.05)
    ensures d == c.(signature := d.signature) && d != c ==> SimilarityWeight(c, d, exp) == 0.9775
    ensures d == c.(tier := d.tier) && d != c ==> SimilarityWeight(c, d, exp) == 1.2825
  {
    assert Abs(c.score - d.score) == Abs(d.score - c.score) && Abs(c.gapPct - d.gapPct) == Abs(d.gapPct - c.gapPct);
    assert Abs(c.floatRotationPct - d.floatRotationPct) == Abs(d.floatRotationPct - c.floatRotationPct);
    assert exp(-Abs(0.0) / 28.0) == exp(-Abs(0.0) / 130.0) == exp(-Abs(0.0) / 18.0) == 1.0;
    hide Abs, Max;
    AllAlikeButOne(exp(-Abs(d.score - c.score) / 28.0));
    AllAlikeButOne(exp(-Abs(d.gapPct - c.gapPct) / 130.0));
    AllAlikeButOne(exp(-Abs(d.floatRotationPct - c.floatRotationPct) / 18.0));
  }

  lemma AllAlikeButOne(x: real)
    ensures Product(x, 1.0, 1.0, 1.35, 1.15) == Product(1.0, x, 1.0, 1.35, 1.15) == Product(1.0, 1.0, x, 1.35, 1.15) == 1.5525 * x
    ensures Product(1.0, 1.0, 1.0, 0.85, 1.15) == 0.9775 && Product(1.0, 1.0, 1.0, 1.35, 0.95) == 1.2825
  {
  }

  // The least distance in everything: a candidate just like this one.
  lemma LikeItself(c: Candidate, audited: Candidate, exp: real -> real)
    requires Exponential(exp) && c.signature == audited.signature && c.tier == audited.tier
    requires c.score == audited.score && c.gapPct == audited.gapPct && c.floatRotationPct == audited.floatRotationPct
    ensures SimilarityWeight(c, audited, exp) == 1.5525
  {
  }

  // ---------- Which return counts ----------

  // How far a change of both returns of an audit moves what the candidate is estimated from.
  function Moved(bias: string, a: Audit, b: Audit): real
  {
    if bias == "trail_to_close" then b.closeReturn - a.closeReturn
    else if bias == "lunch" then b.lunchReturn - a.lunchReturn
    else ((b.lunchReturn - a.lunchReturn) + (b.closeReturn - a.closeReturn)) / 2.0
  }

  // The same weights, and moments that differ by `d`.
  ghost predicate Shifted(s: seq<Sample>, s': seq<Sample>, d: real)
  {
    && s != [] && s' != [] && Weights(s') == Weights(s) && Weights(s'[1..]) == Weights(s[1..])
    && Total(s') == Total(s) && Moment(s') == Moment(s) + d
  }

  lemma ShiftedBefore(s: seq<Sample>, s': seq<Sample>, d: real, x: Sample)
    requires Shifted(s, s', d)
    ensures Shifted(s + [x], s' + [x], d)
  {
    assert (s + [x])[..|s|] == s && (s' + [x])[..|s'|] == s';
  }

  lemma ShiftedLast(s: seq<Sample>, x: Sample, y: Sample)
    requires s != [] && x.weight == y.weight
    ensures Shifted(s + [x], s + [y], Raise(x, y))
  {
    assert (s + [x])[..|s|] == s && (s + [y])[..|s|] == s;
    assert y.value * y.weight == x.value * x.weight + x.weight * (y.value - x.value);
  }

  // What one sample adds to the moment more than another of the same weight.
  function Raise(x: Sample, y: Sample): real
  {
    x.weight * (y.value - x.value)
  }

  lemma SamplesOfOneMore(c: Candidate, audits: seq<Audit>, a: Audit, scanned: map<string, Candidate>, exp: real -> real)
    ensures var s := Samples(c, audits, scanned, exp);
            Samples(c, audits + [a], scanned, exp) ==
              if a.ticker in scanned then s + [AuditSample(c, a, scanned[a.ticker], exp)] else s
  {
    assert (audits + [a])[..|audits|] == audits;
  }

  lemma SampleMoves(c: Candidate, a: Audit, b: Audit, audited: Candidate, exp: real -> real)
    requires a.ticker == b.ticker && Exponential(exp)
    ensures var x, y := AuditSample(c, a, audited, exp), AuditSample(c, b, audited, exp);
            && x.weight == y.weight > 0.0
            && (Raise(x, y) > 0.0 <==> Moved(c.exitBias, a, b) > 0.0)
            && (Raise(x, y) == 0.0 <==> Moved(c.exitBias, a, b) == 0.0)
            && (Moved(c.exitBias, a, b) == 0.0 ==> x == y)
  {
    WeightIsBounded(c, audited, exp);
    hide SimilarityWeight, Exponential;
    var x, y := AuditSample(c, a, audited, exp), AuditSample(c, b, audited, exp);
    assert y.value - x.value == Moved(c.exitBias, a, b);
    Quotient(x.weight, y.value - x.value);
  }

  lemma {:induction false} OneReturn(c: Candidate, audits: seq<Audit>, k: nat, b: Audit, scanned: map<string, Candidate>,
                                     exp: real -> real)
    requires k < |audits| && b.ticker == audits[k].ticker && Exponential(exp)
    ensures var s, s' := Samples(c, audits, scanned, exp), Samples(c, audits[k := b], scanned, exp);
            && (b.ticker !in scanned || Moved(c.exitBias, audits[k], b) == 0.0 ==> s' == s)
            && (b.ticker in scanned ==>
                  Shifted(s, s', Raise(AuditSample(c, audits[k], scanned[b.ticker], exp), AuditSample(c, b, scanned[b.ticker], exp))))
    decreases |audits|
  {
    hide Samples, AuditSample, Shifted, Moved, Raise, Exponential;
    var n := |audits| - 1;
    var init, last := audits[..n], audits[n];
    assert audits == init + [last];
    SamplesOfOneMore(c, init, last, scanned, exp);
    if k < n {
      OneReturn(c, init, k, b, scanned, exp);
      assert audits[k := b] == init[k := b] + [last] && init[k] == audits[k];
      SamplesOfOneMore(c, init[k := b], last, scanned, exp);
      if b.ticker in scanned {
        var d := Raise(AuditSample(c, audits[k], scanned[b.ticker], exp), AuditSample(c, b, scanned[b.ticker], exp));
        if last.ticker in scanned {
          ShiftedBefore(Samples(c, init, scanned, exp), Samples(c, init[k := b], scanned, exp), d,
                        AuditSample(c, last, scanned[last.ticker], exp));
        }
      }
    } else {
      assert audits[k := b] == init + [b];
      SamplesOfOneMore(c, init, b, scanned, exp);
      if b.ticker in scanned {
        SampleMoves(c, last, b, scanned[b.ticker], exp);
        ShiftedLast(Samples(c, init, scanned, exp), AuditSample(c, last, scanned[b.ticker], exp),
                    AuditSample(c, b, scanned[b.ticker], exp));
      }
    }
  }

  // The mean rises exactly with the return that the exit bias names, or with the sum of both
  // if it names neither; what leaves that as it is changes nothing in the estimate, and so
  // does an audit of a name that was not scanned.
  lemma ReturnDecides(c: Candidate, audits: seq<Audit>, k: nat, lunch: real, close: real,
                      scanned: map<string, Candidate>, exp: real -> real, sqrt: real -> real)
    requires k < |audits| && Exponential(exp) && SquareRoot(sqrt)
    ensures var a := audits[k];
            var e := Evaluate(c, Samples(c, audits, scanned, exp), exp, sqrt);
            var e' := Evaluate(c, Samples(c, audits[k := Audit(a.ticker, lunch, close)], scanned, exp), exp, sqrt);
            var rise := if c.exitBias == "trail_to_close" then close - a.closeReturn
                        else if c.exitBias == "lunch" then lunch - a.lunchReturn
                        else (lunch + close) - (a.lunchReturn + a.closeReturn);
            && (a.ticker in scanned ==> (e'.expected > e.expected <==> rise > 0.0) && (e' == e <==> rise == 0.0))
            && (a.ticker !in scanned ==> e' == e)
  {
    hide Exponential, SquareRoot, Samples, AuditSample, Confidence, ConfidenceTier, WinProbability, WeightedMean, Deviation;
    hide EffectiveN, Margin, Shifted, Raise;
    var a, b := audits[k], Audit(audits[k].ticker, lunch, close);
    OneReturn(c, audits, k, b, scanned, exp);
    if a.ticker in scanned {
      SamplesArePositive(c, audits, scanned, exp);
      SampleMoves(c, a, b, scanned[a.ticker], exp);
      MeanShifts(Samples(c, audits, scanned, exp), Samples(c, audits[k := b], scanned, exp),
                 Raise(AuditSample(c, a, scanned[a.ticker], exp), AuditSample(c, b, scanned[a.ticker], exp)));
    }
  }

  lemma MeanShifts(s: seq<Sample>, s': seq<Sample>, d: real)
    requires Shifted(s, s', d) && AllPositive(Weights(s))
    ensures WeightedMean(s') > WeightedMean(s) <==> d > 0.0
    ensures WeightedMean(s') == WeightedMean(s) <==> d == 0.0
  {
    hide Total, Moment, Sum;
    SumsArePositive(Weights(s));
    TotalIsSum(s);
    MeanMoves(Moment(s), d, Total(s));
  }

  lemma MeanMoves(m: real, d: real, t: real)
    requires t > 0.0
    ensures (m + d) / t > m / t <==> d > 0.0
    ensures (m + d) / t == m / t <==> d == 0.0
  {
    assert (m / t) * t == m;
    Ratio(m + d, t, m / t);
  }

  // Without a counted audit the estimate is the prior. One audit of the candidate itself
  // weighs 7.5525 against 4 for the prior.
  lemma PriorAlone(c: Candidate, audits: seq<Audit>, scanned: map<string, Candidate>, exp: real -> real, sqrt: real -> real)
    requires SquareRoot(sqrt) && forall a :: a in audits ==> a.ticker !in scanned
    ensures Samples(c, audits, scanned, exp) == [Sample(PriorReturn(c), 4.0)]
    ensures var e := Evaluate(c, Samples(c, audits, scanned, exp), exp, sqrt); e.expected == PriorReturn(c) && e.sampleSize == 0
    decreases |audits|
  {
    hide SquareRoot, PriorReturn, Confidence, ConfidenceTier, WinProbability, Deviation, EffectiveN, Margin;
    if audits != [] {
      PriorAlone(c, audits[..|audits| - 1], scanned, exp, sqrt);
      assert audits[|audits| - 1] in audits;
    }
    OneSample(Sample(PriorReturn(c), 4.0));
    Ratio(PriorReturn(c) * 4.0, 4.0, PriorReturn(c));
  }

  lemma OneSample(x: Sample)
    ensures Total([x]) == x.weight && Moment([x]) == x.value * x.weight
  {
    assert [x][..0] == [];
  }

  lemma OneOwnAudit(c: Candidate, a: Audit, scanned: map<string, Candidate>, exp: real -> real, sqrt: real -> real)
    requires Exponential(exp) && SquareRoot(sqrt) && a.ticker == c.ticker && c.ticker in scanned && scanned[c.ticker] == c
    requires c.exitBias == "trail_to_close"
    ensures var e := Evaluate(c, Samples(c, [a], scanned, exp), exp, sqrt);
            e.sampleSize == 1 && 11.5525 * e.expected == 4.0 * PriorReturn(c) + 7.5525 * a.closeReturn
  {
    hide SquareRoot, Exponential, PriorReturn, Confidence, ConfidenceTier, WinProbability, Deviation, EffectiveN, Margin, SimilarityWeight;
    LikeItself(c, c, exp);
    var x, y := Sample(PriorReturn(c), 4.0), Sample(a.closeReturn, 7.5525);
    SamplesOfOneMore(c, [], a, scanned, exp);
    assert [] + [a] == [a] && Samples(c, [], scanned, exp) == [x];
    var s := [x] + [y];
    assert s[..|s| - 1] == [x] && s[|s| - 1] == y;
    OneSample(x);
    assert Total(s) == 11.5525 && Moment(s) == 4.0 * PriorReturn(c) + 7.5525 * a.closeReturn;
    assert Samples(c, [a], scanned, exp) == s;
    Ratio(Moment(s), Total(s), WeightedMean(s));
  }

  // ---------- The prior ----------

  function TierRank(tier: string): nat
  {
    if tier == "illiquid" then 0 else if tier == "thin_liquidity" then 1
    else if tier == "watchable_liquidity" then 3 else if tier == "high_liquidity" then 4 else 2
  }

  // The prior never falls with the score, the place in the range, the data or the liquidity,
  // and never rises with risk flags or a reason to avoid the name.
  lemma PriorRises(c: Candidate, d: Candidate)
    requires c.score <= d.score && c.rangePositionPct <= d.rangePositionPct && c.dataQuality <= d.dataQuality
    requires TierRank(c.tier) <= TierRank(d.tier) && d.riskFlags <= c.riskFlags && (d.avoided ==> c.avoided)
    ensures PriorReturn(c) <= PriorReturn(d)
  {
  }

  // Nothing is expected of a middling name: half the score, the middle of the range, data
  // quality six, an unlisted tier. From there each point of the score is worth 0.08, of the
  // range 0.025, of the data 0.2; a flag costs 0.75 and a reason to avoid 2.5; and liquidity
  // is worth -1.5 to 0.8.
  lemma PriorFromTheMiddle(c: Candidate)
    ensures var raw := 0.08 * (c.score - 50.0) + 0.025 * (c.rangePositionPct - 50.0) + 0.2 * (c.dataQuality - 6.0)
                       + [-1.5, -0.75, 0.0, 0.25, 0.8][TierRank(c.tier)]
                       - 0.75 * c.riskFlags as real - if c.avoided then 2.5 else 0.0;
            PriorReturn(c) == if raw < -8.0 then -8.0 else if raw > 8.0 then 8.0 else raw
  {
  }

  // ---------- The band ----------

  lemma DeviationIsBounded(s: seq<Sample>, sqrt: real -> real, low: real, high: real)
    requires SquareRoot(sqrt) && s != [] && AllPositive(Weights(s)) && Within(s, low, high)
    ensures Deviation(s, sqrt) <= Max(6.0, (high - low) / 2.0)
  {
    hide WeightedMean, WeightedVariance, Sq;
    var variance := WeightedVariance(s, WeightedMean(s));
    VarianceIsBounded(s, low, high);
    assert Within(s, low, high) && low <= s[0].value <= high;
    Halve(high - low);
    RootsAreOrdered(sqrt(variance), (high - low) / 2.0);
  }

  lemma Halve(x: real)
    ensures 4.0 * Sq(x / 2.0) == Sq(x)
  {
  }

  lemma Divided(x: real, root: real)
    requires x > 0.0 && root >= 1.0
    ensures 0.0 < x / root <= x
  {
    Ratio(x, root, x);
    Ratio(x, root, 0.0);
    assert x * (root - 1.0) >= 0.0;
  }

  // The reported band always encloses the mean, the mean lies among the returns, the guard
  // on the effective size never binds, and the width of the band is bounded by the spread
  // of the returns alone.
  lemma BandEnclosesMean(c: Candidate, s: seq<Sample>, exp: real -> real, sqrt: real -> real, low: real, high: real)
    requires SquareRoot(sqrt) && s != [] && AllPositive(Weights(s)) && Within(s, low, high)
    ensures var e := Evaluate(c, s, exp, sqrt);
            && low <= e.expected <= high && e.lower < e.expected < e.upper
            && e.upper - e.lower <= 2.0 * (1.645 * Max(6.0, (high - low) / 2.0) + 10.0)
    ensures Max(EffectiveN(Weights(s)), 1.0) == EffectiveN(Weights(s))
  {
    hide SquareRoot, WeightedMean, Deviation, EffectiveN, Confidence, WinProbability, Root;
    MeanIsWithin(s, low, high);
    DeviationIsBounded(s, sqrt, low, high);
    EffectiveNIsBounded(Weights(s));
    var n, count := Max(EffectiveN(Weights(s)), 1.0), Max((|s| - 1) as real, 1.0);
    Divided(Deviation(s, sqrt), Root(n, sqrt));
    Divided(10.0, Root(count, sqrt));
  }

  // More audits of the same spread narrow the band: the margin falls with either size.
  lemma MarginShrinks(deviation: real, n: real, n': real, count: nat, count': nat, sqrt: real -> real)
    requires SquareRoot(sqrt) && deviation > 0.0 && n <= n' && count <= count'
    ensures Margin(deviation, n', count', sqrt) <= Margin(deviation, n, count, sqrt)
  {
    RootsRise(Max(n, 1.0), Max(n', 1.0), sqrt);
    RootsRise(Max(count as real, 1.0), Max(count' as real, 1.0), sqrt);
    hide Root, SquareRoot;
    LargerDivisor(deviation, Root(Max(n, 1.0), sqrt), Root(Max(n', 1.0), sqrt));
    LargerDivisor(10.0, Root(Max(count as real, 1.0), sqrt), Root(Max(count' as real, 1.0), sqrt));
  }

  lemma RootsRise(x: real, y: real, sqrt: real -> real)
    requires SquareRoot(sqrt) && 1.0 <= x <= y
    ensures Root(x, sqrt) <= Root(y, sqrt)
  {
    hide Sq;
    RootsAreOrdered(sqrt(x), sqrt(y));
  }

  lemma LargerDivisor(x: real, a: real, b: real)
    requires x > 0.0 && 1.0 <= a <= b
    ensures x / b <= x / a
  {
    Divided(x, a);
    assert x == (x / a) * a;
    assert (x / a) * (b - a) >= 0.0;
    assert x <= (x / a) * b;
    Ratio(x, b, x / a);
  }

  // Four times the samples, and four times their effective size, halve the margin; from one
  // of each it is 1.645 deviations and ten points.
  lemma MarginHalves(deviation: real, n: real, count: nat, sqrt: real -> real)
    requires SquareRoot(sqrt) && n >= 1.0 && count >= 1
    ensures 2.0 * Margin(deviation, 4.0 * n, 4 * count, sqrt) == Margin(deviation, n, count, sqrt)
    ensures Margin(deviation, 1.0, 1, sqrt) == 1.645 * deviation + 10.0
  {
    RootOfFour(n, sqrt);
    RootOfFour(count as real, sqrt);
    assert (4 * count) as real == 4.0 * (count as real) && count as real >= 1.0;
    RootOfOne(sqrt);
    hide Root, SquareRoot;
    HalfQuotient(deviation, Root(n, sqrt));
    HalfQuotient(10.0, Root(count as real, sqrt));
  }

  lemma HalfQuotient(x: real, d: real)
    requires d > 0.0
    ensures 2.0 * (x / (2.0 * d)) == x / d
  {
    assert (x / d) * d == x;
    Ratio(x, 2.0 * d, (x / d) / 2.0);
  }

  lemma RootOfFour(x: real, sqrt: real -> real)
    requires SquareRoot(sqrt) && x >= 1.0
    ensures Root(4.0 * x, sqrt) == 2.0 * Root(x, sqrt)
  {
    assert Sq(2.0 * sqrt(x)) == 4.0 * Sq(sqrt(x));
    hide Sq;
    RootsAreOrdered(sqrt(4.0 * x), 2.0 * sqrt(x));
    RootsAreOrdered(2.0 * sqrt(x), sqrt(4.0 * x));
  }

  lemma RootOfOne(sqrt: real -> real)
    requires SquareRoot(sqrt)
    ensures Root(1.0, sqrt) == 1.0
  {
    assert Sq(1.0) == 1.0;
    hide Sq;
    RootsAreOrdered(sqrt(1.0), 1.0);
    RootsAreOrdered(1.0, sqrt(1.0));
  }

  // The prior counts in the band: from weights 4 and w it is narrower than from one sample by
  // the root of their effective size.
  lemma PriorNarrowsTheBand(c: Candidate, x: Sample, w: real, v: real, exp: real -> real, sqrt: real -> real)
    requires SquareRoot(sqrt) && x.weight == 4.0 && w > 0.0
    ensures var e := Evaluate(c, [x, Sample(v, w)], exp, sqrt);
            Sq(e.upper - e.expected - 10.0) * Sq(4.0 + w) == Sq(1.645 * e.deviation) * (16.0 + Sq(w))
  {
    hide *;
    var s := [x, Sample(v, w)];
    var e := Evaluate(c, s, exp, sqrt);
    var n := EffectiveN([4.0, w]);
    TwoWorth(4.0, w);
    BandOfTwo(c, x, w, v, exp, sqrt);
    RootSquared(n, sqrt);
    OverRoot(e.deviation, Root(n, sqrt), n);
    Exchange(Sq(1.645 * (e.deviation / Root(n, sqrt))), n, 16.0 + Sq(w), Sq(1.645 * e.deviation));
  }

  lemma BandOfTwo(c: Candidate, x: Sample, w: real, v: real, exp: real -> real, sqrt: real -> real)
    requires SquareRoot(sqrt) && x.weight == 4.0 && w > 0.0 && EffectiveN([4.0, w]) >= 1.0
    ensures var e := Evaluate(c, [x, Sample(v, w)], exp, sqrt);
            e.upper - e.expected - 10.0 == 1.645 * (e.deviation / Root(EffectiveN([4.0, w]), sqrt))
  {
    hide Deviation, WeightedMean, EffectiveN, Root, Confidence, ConfidenceTier, WinProbability, SquareRoot;
    RootOfOne(sqrt);
    assert Weights([x, Sample(v, w)]) == [4.0, w];
  }

  lemma RootSquared(n: real, sqrt: real -> real)
    requires SquareRoot(sqrt) && n >= 1.0
    ensures Sq(Root(n, sqrt)) == n && Root(n, sqrt) >= 1.0
  {
    hide Sq;
  }

  lemma TwoWorth(a: real, b: real)
    requires a > 0.0 && b > 0.0
    ensures EffectiveN([a, b]) >= 1.0 && EffectiveN([a, b]) * (Sq(a) + Sq(b)) == Sq(a + b) && (a == 4.0 ==> Sq(a) == 16.0)
  {
    TwoWeights(a, b);
    assert AllPositive([a, b]);
    EffectiveNIsBounded([a, b]);
    Ratio(Sq(a + b), Sq(a) + Sq(b), EffectiveN([a, b]));
  }

  lemma OverRoot(d: real, root: real, n: real)
    requires root >= 1.0 && Sq(root) == n
    ensures Sq(1.645 * (d / root)) * n == Sq(1.645 * d)
  {
    var q := d / root;
    assert q * root == d;
    assert (1.645 * q) * root == 1.645 * d;
    assert ((1.645 * q) * (1.645 * q)) * (root * root) == ((1.645 * q) * root) * ((1.645 * q) * root);
  }

  lemma Exchange(a: real, n: real, m: real, b: real)
    requires a * n == b
    ensures a * (n * m) == b * m
  {
  }

  lemma TwoWeights(a: real, b: real)
    ensures Sum([a, b]) == a + b && SumOfSquares([a, b]) == Sq(a) + Sq(b)
  {
    OneTerm([a]);
    SumsGrow([a], b);
    assert [a] + [b] == [a, b];
  }

  // The reported deviation is the root of the variance about the mean, but at least six.
  lemma DeviationIs(s: seq<Sample>, sqrt: real -> real)
    requires SquareRoot(sqrt) && s != [] && AllPositive(Weights(s))
    ensures var variance := WeightedVariance(s, WeightedMean(s));
            Deviation(s, sqrt) >= 6.0 && Sq(Deviation(s, sqrt)) == if variance > 36.0 then variance else 36.0
  {
    var low, high := LeastValue(s), GreatestValue(s);
    VarianceIsBounded(s, low, high);
    var variance := WeightedVariance(s, WeightedMean(s));
    assert Sq(6.0) == 36.0;
    hide WeightedVariance, WeightedMean, Sq;
    if sqrt(variance) >= 6.0 { SquaresAreOrdered(6.0, sqrt(variance)); } else { SquaresAreOrdered(sqrt(variance), 6.0); }
  }

  lemma SquaresAreOrdered(a: real, b: real)
    requires 0.0 <= a <= b
    ensures Sq(a) <= Sq(b) && (a < b ==> Sq(a) < Sq(b))
  {
    assert b * b - a * a == (b - a) * (b + a);
    if a < b { ProductIsPositive(b - a, b + a, (b - a) * (b + a)); }
  }

  function LeastValue(s: seq<Sample>): (low: real)
    requires s != []
    ensures forall i :: 0 <= i < |s| ==> low <= s[i].value
  {
    if |s| == 1 then s[0].value else Min(LeastValue(s[..|s| - 1]), s[|s| - 1].value)
  }

  function GreatestValue(s: seq<Sample>): (high: real)
    requires s != []
    ensures forall i :: 0 <= i < |s| ==> s[i].value <= high
  {
    if |s| == 1 then s[0].value else Max(GreatestValue(s[..|s| - 1]), s[|s| - 1].value)
  }

  // ---------- Confidence ----------

  lemma ConfidenceIsBounded(c: Candidate, deviation: real, count: nat, effectiveSize: real, exp: real -> real)
    requires Exponential(exp) && deviation >= 0.0 && effectiveSize >= 0.0
    ensures 0.0 < Confidence(c, deviation, count, effectiveSize, exp) <= SampleSizeCap(count)
  {
    assert exp(-effectiveSize / 18.0) <= exp(0.0);
    Ratio(1.0, 1.0 + deviation / 14.0, 0.0);
  }

  // Of a hundred points the effective size can earn 50, the data and the agreement 20 each and
  // the score 10; the number of samples caps the sum.
  lemma ConfidenceParts(c: Candidate, deviation: real, count: nat, size: real, exp: real -> real)
    requires deviation >= 0.0 && 0.0 <= c.dataQuality <= 8.0 && 0.0 <= c.score <= 100.0
    ensures var earned := 50.0 * (1.0 - exp(-size / 18.0)) + 2.5 * c.dataQuality + 20.0 * (1.0 / (1.0 + deviation / 14.0)) + 0.1 * c.score;
            var cap := if count >= 50 then 88.0 else if count >= 20 then 74.0 else if count >= 5 then 58.0
                       else if count >= 1 then 38.0 else 18.0;
            Confidence(c, deviation, count, size, exp) == if earned <= cap then earned else cap
  {
  }

  // Data and scores off the scale count as its nearer end.
  lemma OffTheScale(c: Candidate, deviation: real, count: nat, size: real, exp: real -> real)
    requires deviation >= 0.0
    ensures c.dataQuality > 8.0 ==> Confidence(c, deviation, count, size, exp) == Confidence(c.(dataQuality := 8.0), deviation, count, size, exp)
    ensures c.dataQuality < 0.0 ==> Confidence(c, deviation, count, size, exp) == Confidence(c.(dataQuality := 0.0), deviation, count, size, exp)
    ensures c.score > 100.0 ==> Confidence(c, deviation, count, size, exp) == Confidence(c.(score := 100.0), deviation, count, size, exp)
    ensures c.score < 0.0 ==> Confidence(c, deviation, count, size, exp) == Confidence(c.(score := 0.0), deviation, count, size, exp)
  {
  }

  // The tier promises a sample size, whatever the rest of the evidence says.
  lemma TierNeedsSamples(c: Candidate, s: seq<Sample>, exp: real -> real, sqrt: real -> real)
    requires s != [] && SquareRoot(sqrt)
    ensures var e := Evaluate(c, s, exp, sqrt);
            && (e.tier != Exploratory <==> e.confidence >= 25.0) && (e.tier == High <==> e.confidence >= 75.0)
            && (e.tier == Sparse <==> 25.0 <= e.confidence < 40.0) && (e.tier == Early <==> 40.0 <= e.confidence < 60.0)
            && (e.tier != Exploratory ==> e.sampleSize >= 1)
            && (e.tier == Early || e.tier == Moderate || e.tier == High ==> e.sampleSize >= 5)
            && (e.tier == Moderate || e.tier == High ==> e.sampleSize >= 20)
            && (e.tier == High ==> e.sampleSize >= 50)
  {
    hide WeightedMean, Deviation, EffectiveN, Margin, WinProbability, Clamp;
  }

  lemma Reciprocal(a: real, b: real)
    requires 0.0 <= b <= a
    ensures 1.0 / (1.0 + a / 14.0) <= 1.0 / (1.0 + b / 14.0)
  {
    LargerDivisor(1.0, 1.0 + b / 14.0, 1.0 + a / 14.0);
  }

  // Confidence never falls when the samples grow or agree better.
  lemma ConfidenceGrows(c: Candidate, deviation: real, deviation': real, count: nat, count': nat,
                        size: real, size': real, exp: real -> real)
    requires Exponential(exp) && 0.0 <= deviation' <= deviation && count <= count' && size <= size'
    ensures Confidence(c, deviation, count, size, exp) <= Confidence(c, deviation', count', size', exp)
  {
    assert exp(-size' / 18.0) <= exp(-size / 18.0);
    Reciprocal(deviation, deviation');
    hide Clamp;
  }

  // ---------- Wins ----------

  lemma {:induction false} GainsAreBounded(s: seq<Sample>)
    requires AllPositive(Weights(s))
    ensures 0.0 <= Gains(s) <= Total(s)
    ensures Gains(s) == Total(s) <==> forall i :: 0 <= i < |s| ==> s[i].value > 0.0
    ensures Gains(s) == 0.0 <==> forall i :: 0 <= i < |s| ==> s[i].value <= 0.0
    decreases |s|
  {
    if s != [] {
      var init := s[..|s| - 1];
      GainsAreBounded(init);
      assert Weights(s)[|s| - 1] > 0.0;
      assert s == init + [s[|s| - 1]];
    }
  }

  // The win probability is certain exactly when every sample, the prior included, gains,
  // and zero exactly when none does.
  lemma WinProbabilityIsAShare(s: seq<Sample>)
    requires s != [] && AllPositive(Weights(s))
    ensures 0.0 <= WinProbability(s) <= 100.0
    ensures WinProbability(s) == 100.0 <==> forall i :: 0 <= i < |s| ==> s[i].value > 0.0
    ensures WinProbability(s) == 0.0 <==> forall i :: 0 <= i < |s| ==> s[i].value <= 0.0
  {
    hide Gains, Total, Sum;
    GainsAreBounded(s);
    SumsArePositive(Weights(s));
    TotalIsSum(s);
    Ratio(Gains(s), Total(s), 0.0);
    Ratio(Gains(s), Total(s), 1.0);
  }

  // Every estimate made from audits has all of this.
  lemma EstimateIsSound(c: Candidate, audits: seq<Audit>, scanned: map<string, Candidate>, exp: real -> real,
                        sqrt: real -> real, low: real, high: real)
    requires Exponential(exp) && SquareRoot(sqrt) && low <= -8.0 && 8.0 <= high
    requires forall a :: a in audits ==> low <= a.lunchReturn <= high && low <= a.closeReturn <= high
    ensures var e := Evaluate(c, Samples(c, audits, scanned, exp), exp, sqrt);
            && low <= e.expected <= high && e.lower < e.expected < e.upper
            && 0.0 < e.confidence <= SampleSizeCap(e.sampleSize) && 0.0 <= e.winProbability <= 100.0
            && (if e.sampleSize > 0 then 1.0 <= e.effectiveSize <= e.sampleSize as real else e.effectiveSize == 0.0)
            && e.upper - e.expected == e.expected - e.lower && e.downside == (if e.lower < 0.0 then -e.lower else 0.0)
  {
    hide Exponential, SquareRoot, Samples, Confidence, WinProbability, EffectiveN, Margin, WeightedMean;
    var s := Samples(c, audits, scanned, exp);
    SamplesArePositive(c, audits, scanned, exp);
    SamplesAreWithin(c, audits, scanned, exp, low, high);
    BandEnclosesMean(c, s, exp, sqrt, low, high);
    WinProbabilityIsAShare(s);
    var w := Weights(s[1..]);
    assert AllPositive(w) by { assert forall i :: 0 <= i < |w| ==> w[i] == Weights(s)[i + 1]; }
    EffectiveSize(w);
    ConfidenceIsBounded(c, Deviation(s, sqrt), |s| - 1, EffectiveN(w), exp);
  }

  lemma EffectiveSize(w: seq<real>)
    requires AllPositive(w)
    ensures EffectiveN(w) >= 0.0 && (if w != [] then 1.0 <= EffectiveN(w) <= |w| as real else EffectiveN(w) == 0.0)
  {
    if w != [] { EffectiveNIsBounded(w); }
  }

  lemma {:induction false} SamplesAreWithin(c: Candidate, audits: seq<Audit>, scanned: map<string, Candidate>,
                                            exp: real -> real, low: real, high: real)
    requires low <= -8.0 && 8.0 <= high
    requires forall a :: a in audits ==> low <= a.lunchReturn <= high && low <= a.closeReturn <= high
    ensures Within(Samples(c, audits, scanned, exp), low, high)
    decreases |audits|
  {
    hide SimilarityWeight;
    if audits == [] {
      PriorIsBounded(c);
    } else {
      var a := audits[|audits| - 1];
      assert a in audits && forall x :: x in audits[..|audits| - 1] ==> x in audits;
      SamplesAreWithin(c, audits[..|audits| - 1], scanned, exp, low, high);
    }
  }

  lemma PriorIsBounded(c: Candidate)
    ensures -8.0 <= PriorReturn(c) <= 8.0
  {
  }
}
