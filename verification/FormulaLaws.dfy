/**
  How the signal score answers to the row: where each component is empty and where it is
  full, and which changes of a row never lower the score.
 */
module FormulaLaws {
  import opened Limits
  import opened Wrappers
  import opened WeightedSamples
  import opened Formula

  // ---------- Empty and full components ----------

  lemma GapEnds(gap: real, c: Config)
    requires ValidConfig(c)
    ensures GapCurve(gap, c) == 0.0 <==> gap <= 0.0
    ensures GapCurve(gap, c) == 18.0 <==> 0.0 < gap && c.idealLow <= gap <= c.idealHigh
  {
    if 0.0 < gap < c.minGap {
      Ratio(gap, c.minGap, 0.0);
      Ratio(gap, c.minGap, 1.0);
    }
    Ratio(gap - c.minGap, c.idealLow - c.minGap, 0.0);
    Ratio(gap - c.minGap, c.idealLow - c.minGap, 1.0);
    Ratio(gap - c.idealHigh, c.maxCredible - c.idealHigh, 0.0);
    Ratio(gap - c.idealHigh, c.maxCredible - c.idealHigh, 1.0);
  }

  // The gap is measured from the previous close, and taken as given without one.
  lemma GapIs(r: Row)
    ensures r.previousClose > 0.0 ==> GapPct(r) * r.previousClose == 100.0 * (r.price - r.previousClose)
    ensures r.previousClose <= 0.0 ==> GapPct(r) == r.gapPct
  {
    if r.previousClose > 0.0 {
      var q := (r.price - r.previousClose) / r.previousClose;
      assert q * r.previousClose == r.price - r.previousClose;
    }
  }

  // Between nothing, the minimum, the ideal low, the ideal high and the credible limit the
  // curve is a straight line through 0, 7, 18, 18 and 8; past the limit it is 4.
  lemma GapAnchors(gap: real, c: Config)
    requires ValidConfig(c) && gap > 0.0
    ensures var points := GapCurve(gap, c);
            && (gap < c.minGap ==> points * c.minGap == 7.0 * gap)
            && (c.minGap <= gap < c.idealLow ==> (points - 7.0) * (c.idealLow - c.minGap) == 11.0 * (gap - c.minGap))
            && (c.idealHigh < gap <= c.maxCredible ==> (18.0 - points) * (c.maxCredible - c.idealHigh) == 10.0 * (gap - c.idealHigh))
            && (c.maxCredible < gap ==> points == 4.0)
  {
    if gap < c.minGap {
      Ratio(gap, c.minGap, 0.0);
      Ratio(gap, c.minGap, 1.0);
      Proportion(gap, c.minGap, 7.0);
    } else if gap < c.idealLow {
      Proportion(gap - c.minGap, c.idealLow - c.minGap, 11.0);
    } else if c.idealHigh < gap <= c.maxCredible {
      Proportion(gap - c.idealHigh, c.maxCredible - c.idealHigh, 10.0);
    }
  }

  lemma Proportion(a: real, b: real, k: real)
    requires b != 0.0
    ensures (a / b * k) * b == k * a
  {
    assert (a / b) * b == a;
    assert ((a / b) * k) * b == ((a / b) * b) * k;
  }

  lemma LiquidityEnds(dollarVolume: real, shares: int, log10: real -> real)
    ensures LiquidityThrust(dollarVolume, shares, log10) == 0.0 <==>
      (dollarVolume <= 0.0 || log10(dollarVolume) <= 5.4) && (shares <= 0 || log10(shares as real) <= 5.0)
    ensures LiquidityThrust(dollarVolume, shares, log10) == 20.0 <==>
      dollarVolume > 0.0 && log10(dollarVolume) - 5.4 >= 7.0 / 3.0 && shares > 0 && log10(shares as real) >= 6.5
  {
  }

  // Eight percent of a known float is the full rotation.
  lemma RotationEnds(r: Row)
    ensures FloatRotation(r) == 0.0 <==> r.volume <= 0 || r.floatShares.None? || r.floatShares.value <= 0.0
    ensures FloatRotation(r) == 14.0 <==>
      r.floatShares.Some? && r.floatShares.value > 0.0 && r.volume as real >= 0.08 * r.floatShares.value
    ensures r.floatShares.Some? && 0.0 <= r.volume as real <= 0.08 * r.floatShares.value ==>
      FloatRotation(r) * r.floatShares.value == 175.0 * r.volume as real
  {
    if FloatKnown(r) {
      Proportion(r.volume as real, r.floatShares.value, 175.0);
      Ratio(r.volume as real, r.floatShares.value, 0.0);
      Ratio(r.volume as real, r.floatShares.value, 0.08);
      assert r.volume as real <= 0.0 <==> r.volume <= 0;
    }
  }

  // Full at the high of a range no wider than 45 percent of the price; empty at or under the
  // low of one that is wider by four points at 0.18 each.
  lemma RangeEnds(r: Row)
    requires r.price > 0.0
    ensures RangeControl(r) == 15.0 <==> r.price >= r.high > r.low && r.high - r.low <= 0.45 * r.price
    ensures RangeControl(r) == 0.0 <==> r.price <= r.low < r.high && r.high - r.low >= (0.45 + 0.04 / 0.18) * r.price
  {
    Ratio(r.high - r.low, r.price, 0.45);
    Ratio(r.high - r.low, r.price, 0.45 + 0.04 / 0.18);
    if r.high - r.low > 0.0 {
      Ratio(r.price - r.low, r.high - r.low, 0.0);
      Ratio(r.price - r.low, r.high - r.low, 1.0);
    }
  }

  lemma CatalystEnds(r: Row)
    ensures SqueezeCatalyst(r) == 0.0 <==>
      && !r.hasNews && (r.shortFloat.Some? ==> r.shortFloat.value <= 0.0)
      && (r.floatShares.Some? && r.floatShares.value > 0.0 ==> r.floatShares.value > 100000000.0)
    ensures SqueezeCatalyst(r) == 13.0 <==>
      && r.hasNews && r.shortFloat.Some? && r.shortFloat.value >= 30.0
      && r.floatShares.Some? && 0.0 < r.floatShares.value <= 20000000.0
  {
  }

  // In a range that is not too wide the points above four are eleven times the place in it ...
  lemma RangeParts(r: Row)
    requires r.price > 0.0 && r.low < r.high
    ensures r.low <= r.price <= r.high && r.high - r.low <= 0.45 * r.price ==>
      (RangeControl(r) - 4.0) * (r.high - r.low) == 11.0 * (r.price - r.low)
    // ... and at its high each point of the width over 45 costs 0.18.
    ensures r.high <= r.price && 0.45 * r.price <= r.high - r.low <= (0.45 + 0.04 / 0.18) * r.price ==>
      (15.0 - RangeControl(r)) * r.price == 18.0 * (r.high - r.low) - 8.1 * r.price
  {
    var width := r.high - r.low;
    Ratio(width, r.price, 0.45);
    Ratio(width, r.price, 0.45 + 0.04 / 0.18);
    Ratio(r.price - r.low, width, 0.0);
    Ratio(r.price - r.low, width, 1.0);
    Proportion(r.price - r.low, width, 11.0);
    Proportion(width, r.price, 18.0);
  }

  // Without a range half the eleven points and all four others.
  lemma NoRangeParts(r: Row)
    requires r.high <= r.low && r.price > 0.0
    ensures RangeControl(r) == 9.5
  {
    Ratio(r.high - r.low, r.price, 0.0);
  }

  // Each point of the spread costs 1.8, and the price band is worth two.
  lemma ExecutionParts(r: Row, c: Config)
    ensures 0.0 <= r.spread && r.spread * 1.8 <= 10.0 ==>
      ExecutionQuality(r, c) == 10.0 - r.spread * 1.8 + if c.minPrice <= r.price <= c.maxPrice then 2.0 else 0.0
  {
  }

  // What each observation is worth.
  lemma PriceParts(r: Row)
    ensures r.previousClose > 0.0 ==> DataQuality(r) == DataQuality(r.(previousClose := 0.0)) + 15.0
    ensures r.price > 0.0 ==> DataQuality(r) == DataQuality(r.(price := 0.0)) + 15.0
    ensures r.high > r.low > 0.0 ==> DataQuality(r) == DataQuality(r.(high := r.low)) + 15.0
  {
    SameFloat(r, r.(previousClose := 0.0));
    SameFloat(r, r.(price := 0.0));
    SameFloat(r, r.(high := r.low));
    hide FloatKnown;
  }

  lemma ObservationParts(r: Row)
    ensures r.volume > 0 ==> DataQuality(r) == DataQuality(r.(volume := 0)) + 15.0
    ensures !r.stale ==> DataQuality(r) == DataQuality(r.(stale := true)) + 5.0
  {
    SameFloat(r, r.(volume := 0));
    SameFloat(r, r.(stale := true));
    hide FloatKnown;
  }

  lemma SourceParts(r: Row)
    ensures r.timestamped ==> DataQuality(r) == DataQuality(r.(timestamped := false)) + 10.0
    ensures r.enriched ==> DataQuality(r) == DataQuality(r.(enriched := false)) + 15.0
  {
    SameFloat(r, r.(timestamped := false));
    SameFloat(r, r.(enriched := false));
    hide FloatKnown;
  }

  lemma FundamentalParts(r: Row)
    ensures r.marketCap.Some? && r.marketCap.value > 0.0 ==> DataQuality(r) == DataQuality(r.(marketCap := None)) + 2.0
    ensures r.shortFloat.Some? ==> DataQuality(r) == DataQuality(r.(shortFloat := None)) + 1.0
    ensures r.floatShares.Some? && r.floatShares.value > 0.0 ==> DataQuality(r) == DataQuality(r.(floatShares := None)) + 2.0
  {
    SameFloat(r, r.(marketCap := None));
    SameFloat(r, r.(shortFloat := None));
    assert !FloatKnown(r.(floatShares := None));
    assert FloatKnown(r) <==> r.floatShares.Some? && r.floatShares.value > 0.0;
    hide FloatKnown;
  }

  lemma SameFloat(r: Row, r': Row)
    requires r.floatShares == r'.floatShares
    ensures FloatKnown(r) == FloatKnown(r')
  {
  }

  // News is worth five points, six percent of short float one, and a scarce float three to one.
  lemma CatalystParts(r: Row)
    ensures r.hasNews ==> SqueezeCatalyst(r) == SqueezeCatalyst(r.(hasNews := false)) + 5.0
    ensures r.shortFloat.Some? && 0.0 <= r.shortFloat.value <= 30.0 ==>
      6.0 * (SqueezeCatalyst(r) - SqueezeCatalyst(r.(shortFloat := None))) == r.shortFloat.value
    ensures !r.hasNews && r.shortFloat.None? && r.floatShares.Some? && r.floatShares.value > 0.0 ==>
      var shares := r.floatShares.value;
      && (SqueezeCatalyst(r) == 3.0 <==> shares <= 20000000.0)
      && (SqueezeCatalyst(r) == 2.0 <==> 20000000.0 < shares <= 50000000.0)
      && (SqueezeCatalyst(r) == 1.0 <==> 50000000.0 < shares <= 100000000.0)
  {
  }

  lemma ExecutionEnds(r: Row, c: Config)
    ensures ExecutionQuality(r, c) == 0.0 <==> r.spread * 1.8 >= 10.0 && !(c.minPrice <= r.price <= c.maxPrice)
    ensures ExecutionQuality(r, c) == 12.0 <==> r.spread <= 0.0 && c.minPrice <= r.price <= c.maxPrice
  {
  }

  lemma DataEnds(r: Row)
    ensures DataQuality(r) == 100.0 <==>
      && r.previousClose > 0.0 && r.price > 0.0 && r.high > r.low > 0.0 && r.volume > 0 && r.timestamped && r.enriched
      && !r.stale && r.spread > 0.0 && r.floatShares.Some? && r.floatShares.value > 0.0
      && r.marketCap.Some? && r.marketCap.value > 0.0 && r.shortFloat.Some?
    ensures DataQuality(r) == 0.0 <==>
      && r.previousClose <= 0.0 && r.price <= 0.0 && !(r.high > r.low > 0.0) && r.volume <= 0 && !r.timestamped && !r.enriched
      && r.stale && r.spread <= 0.0 && !(r.floatShares.Some? && r.floatShares.value > 0.0)
      && !(r.marketCap.Some? && r.marketCap.value > 0.0) && r.shortFloat.None?
  {
  }

  // ---------- The grade ----------

  // A name is left alone exactly if it has a price to compare with, trades, is neither halted
  // nor diluted, and lies within the limits for price, gap and volume.
  lemma NotAvoidedIff(r: Row, c: Config)
    ensures !Avoided(r, c) <==>
      && (r.previousClose > 0.0 || r.gapPct > 0.0) && r.volume > 0 && !r.halted && !r.offering
      && c.minPrice <= r.price <= c.maxPrice && c.minGap <= GapPct(r)
      && c.minDollarVolume <= r.price * r.volume as real && c.minShareVolume <= r.volume
  {
    hide GapPct;
    if !Avoided(r, c) {
      forall reason ensures !Applies(reason, r, GapPct(r), DollarVolume(r), c) {}
      assert !Applies(NoPreviousClose, r, GapPct(r), DollarVolume(r), c) && !Applies(ZeroVolume, r, GapPct(r), DollarVolume(r), c);
      assert !Applies(CurrentHalt, r, GapPct(r), DollarVolume(r), c) && !Applies(RecentOffering, r, GapPct(r), DollarVolume(r), c);
      assert !Applies(PriceBelowMin, r, GapPct(r), DollarVolume(r), c) && !Applies(PriceAboveMax, r, GapPct(r), DollarVolume(r), c);
      assert !Applies(GapBelowMin, r, GapPct(r), DollarVolume(r), c) && !Applies(LowDollarVolume, r, GapPct(r), DollarVolume(r), c);
      assert !Applies(LowShareVolume, r, GapPct(r), DollarVolume(r), c);
    }
  }

  // Every other name is graded by its score alone.
  lemma GradeBands(score: real, avoided: bool)
    ensures SetupGrade(score, avoided) == Avoid <==> avoided
    ensures SetupGrade(score, avoided) == APlus <==> !avoided && 90.0 <= score
    ensures SetupGrade(score, avoided) == A <==> !avoided && 80.0 <= score < 90.0
    ensures SetupGrade(score, avoided) == B <==> !avoided && 70.0 <= score < 80.0
    ensures SetupGrade(score, avoided) == C <==> !avoided && 55.0 <= score < 70.0
    ensures SetupGrade(score, avoided) == D <==> !avoided && score < 55.0
  {
  }

  // ---------- Changes that never lower the score ----------

  ghost predicate Rising(log10: real -> real)
  {
    forall x, y :: 0.0 < x <= y ==> log10(x) <= log10(y)
  }

  // Better components and no new risk make no lower score.
  lemma BetterRow(r: Row, r': Row, c: Config, log10: real -> real)
    requires ValidConfig(c) && 0.0 <= r'.spread <= r.spread && AsGood(r, r', c, log10)
    requires forall risk :: Present(risk, SetupOf(r'), c) ==> Present(risk, SetupOf(r), c)
    ensures Score(r, c, log10) <= Score(r', c, log10)
  {
    hide Components, Present, SetupOf, AsGood;
    SetupIsOfRow(r);
    SetupIsOfRow(r');
    ComponentsRise(r, r', c, log10);
    PenaltyGrows(SetupOf(r'), SetupOf(r), c);
  }

  lemma SetupIsOfRow(r: Row)
    ensures SetupOf(r).r == r
  {
  }

  // The components one by one.
  ghost predicate AsGood(r: Row, r': Row, c: Config, log10: real -> real)
    requires ValidConfig(c)
  {
    && GapCurve(GapPct(r), c) <= GapCurve(GapPct(r'), c)
    && LiquidityThrust(DollarVolume(r), r.volume, log10) <= LiquidityThrust(DollarVolume(r'), r'.volume, log10)
    && FloatRotation(r) <= FloatRotation(r') && RangeControl(r) <= RangeControl(r') && SqueezeCatalyst(r) <= SqueezeCatalyst(r')
    && ExecutionQuality(r, c) <= ExecutionQuality(r', c) && DataQuality(r) <= DataQuality(r')
  }

  lemma ComponentsRise(r: Row, r': Row, c: Config, log10: real -> real)
    requires ValidConfig(c) && AsGood(r, r', c, log10)
    ensures Components(r, c, log10) <= Components(r', c, log10)
  {
    hide GapCurve, GapPct, LiquidityThrust, DollarVolume, FloatRotation, RangeControl, SqueezeCatalyst, ExecutionQuality, DataQuality;
  }

  lemma NoNewRisk(r: Row, r': Row, c: Config)
    requires r'.halted == r.halted && r'.offering == r.offering && r'.reverseSplit == r.reverseSplit
    requires r'.floatShares == r.floatShares && r'.previousClose == r.previousClose && r'.gapPct == r.gapPct
    requires r.volume <= r'.volume && r'.spread <= r.spread && r'.stale == r.stale && r'.sourceConfidence == r.sourceConfidence
    requires r'.price == r.price || (c.minPrice <= r'.price <= c.maxPrice)
    requires GapPct(r') == GapPct(r) || GapPct(r') <= Min(c.maxCredible, c.maxCredible * 2.0)
    requires DollarVolume(r) <= DollarVolume(r') && DataQuality(r) <= DataQuality(r')
    ensures forall risk :: Present(risk, SetupOf(r'), c) ==> Present(risk, SetupOf(r), c)
  {
    hide GapPct, DollarVolume, DataQuality;
    forall risk | Present(risk, SetupOf(r'), c) ensures Present(risk, SetupOf(r), c) {}
  }

  lemma LiquidityRises(x: real, y: real, m: int, n: int, log10: real -> real)
    requires Rising(log10) && x <= y && m <= n
    ensures LiquidityThrust(x, m, log10) <= LiquidityThrust(y, n, log10)
  {
    assert m as real <= n as real;
    if 0 < m { assert 0.0 < m as real; }
  }

  lemma RotationRises(r: Row, n: int)
    requires r.volume <= n
    ensures FloatRotation(r) <= FloatRotation(r.(volume := n))
  {
    if FloatKnown(r) {
      assert r.volume as real <= n as real;
      Quotients(r.volume as real, n as real, r.floatShares.value);
    }
  }

  // More volume never lowers the score.
  lemma MoreVolume(r: Row, n: int, c: Config, log10: real -> real)
    requires ValidConfig(c) && Rising(log10) && r.price >= 0.0 && r.spread >= 0.0 && r.volume <= n
    ensures Score(r, c, log10) <= Score(r.(volume := n), c, log10)
  {
    var r' := r.(volume := n);
    Scale(r.volume as real, n as real, r.price);
    LiquidityRises(DollarVolume(r), DollarVolume(r'), r.volume, n, log10);
    RotationRises(r, n);
    assert DataQuality(r) <= DataQuality(r');
    assert GapPct(r) == GapPct(r') && RangeControl(r) == RangeControl(r');
    NoNewRisk(r, r', c);
    BetterRow(r, r', c, log10);
  }

  // News never lowers it.
  lemma AddedNews(r: Row, c: Config, log10: real -> real)
    requires ValidConfig(c) && r.spread >= 0.0
    ensures Score(r, c, log10) <= Score(r.(hasNews := true), c, log10)
  {
    var r' := r.(hasNews := true);
    assert GapPct(r) == GapPct(r') && DollarVolume(r) == DollarVolume(r') && FloatRotation(r) == FloatRotation(r');
    assert RangeControl(r) == RangeControl(r') && DataQuality(r) == DataQuality(r');
    NoNewRisk(r, r', c);
    BetterRow(r, r', c, log10);
  }

  // Nothing but the execution and the data points look at the spread.
  lemma OnlySpread(r: Row, spread: real)
    ensures var r' := r.(spread := spread);
            && GapPct(r') == GapPct(r) && DollarVolume(r') == DollarVolume(r) && FloatRotation(r') == FloatRotation(r)
            && RangeControl(r') == RangeControl(r) && SqueezeCatalyst(r') == SqueezeCatalyst(r)
  {
  }

  // A narrower spread never lowers it, as long as there is one left.
  lemma NarrowerSpread(r: Row, spread: real, c: Config, log10: real -> real)
    requires ValidConfig(c) && 0.0 < spread <= r.spread
    ensures Score(r, c, log10) <= Score(r.(spread := spread), c, log10)
  {
    var r' := r.(spread := spread);
    OnlySpread(r, spread);
    assert ExecutionQuality(r, c) <= ExecutionQuality(r', c) && DataQuality(r) == DataQuality(r');
    hide GapPct, DollarVolume, FloatRotation, RangeControl, SqueezeCatalyst, DataQuality, ExecutionQuality, Components, Penalty, Present;
    NoNewRisk(r, r', c);
    BetterRow(r, r', c, log10);
  }

  // A spread of zero counts as unknown. Coming down to it raises the unrounded, unclamped
  // score exactly if the execution points and the charge saved make up for the data points,
  // and for the charge for poor data where those decide it.
  lemma SpreadToZero(r: Row, c: Config, log10: real -> real)
    requires ValidConfig(c) && r.spread > 0.0
    ensures var r' := r.(spread := 0.0);
            var saved := Min(r.spread * 1.8, 10.0) + if r.spread >= c.wideSpread then Min(r.spread * 2.5, 25.0) else 0.0;
            var lost := 0.4 + if 65.0 <= DataQuality(r) < 70.0 then 8.0 else 0.0;
            Components(r', c, log10) - Penalty(SetupOf(r'), c) >= Components(r, c, log10) - Penalty(SetupOf(r), c)
            <==> saved >= lost
  {
    var r' := r.(spread := 0.0);
    hide *;
    OnlySpread(r, 0.0);
    AtZero(r, c);
    ComponentsMove(r, r', c, log10);
    PenaltyMoves(r, c);
  }

  lemma AtZero(r: Row, c: Config)
    requires r.spread > 0.0
    ensures DataQuality(r.(spread := 0.0)) == DataQuality(r) - 5.0
    ensures ExecutionQuality(r.(spread := 0.0), c) == ExecutionQuality(r, c) + Min(r.spread * 1.8, 10.0)
  {
    hide FloatKnown;
    FloatStays(r, 0.0);
  }

  lemma PenaltyMoves(r: Row, c: Config)
    requires r.spread > 0.0
    ensures var s, s' := SetupOf(r), SetupOf(r.(spread := 0.0));
            Penalty(s', c) - Penalty(s, c) ==
              (if 65.0 <= DataQuality(r) < 70.0 then 8.0 else 0.0)
              - (if r.spread >= c.wideSpread then Min(r.spread * 2.5, 25.0) else 0.0)
  {
    var r' := r.(spread := 0.0);
    var s, s' := SetupOf(r), SetupOf(r');
    OnlySpread(r, 0.0);
    assert DataQuality(r') == DataQuality(r) - 5.0;
    assert Charge(WideSpread, s', c) == 0.0;
    assert Charge(WideSpread, s, c) == if r.spread >= c.wideSpread then Min(r.spread * 2.5, 25.0) else 0.0;
    assert Charge(PoorData, s, c) == if DataQuality(r) < 65.0 then 8.0 else 0.0;
    assert Charge(PoorData, s', c) == if DataQuality(r) < 70.0 then 8.0 else 0.0;
    assert s' == s.(r := r', quality := s'.quality);
    hide GapPct, DollarVolume, DataQuality, FloatKnown, Penalty, Charge, SetupOf;
    forall risk ensures risk != WideSpread && risk != PoorData ==> Charge(risk, s', c) == Charge(risk, s, c) {
      if risk != WideSpread && risk != PoorData { SameCharge(risk, s, 0.0, s'.quality, c); }
    }
    TwoCharges(s, s', c);
  }

  lemma SameCharge(risk: Risk, s: Setup, spread: real, quality: real, c: Config)
    requires risk != WideSpread && risk != PoorData
    ensures Charge(risk, s.(r := s.r.(spread := spread), quality := quality), c) == Charge(risk, s, c)
  {
    hide If, FloatKnown;
    FloatStays(s.r, spread);
  }

  lemma FloatStays(r: Row, spread: real)
    ensures FloatKnown(r.(spread := spread)) == FloatKnown(r)
  {
  }

  lemma TwoCharges(s: Setup, s': Setup, c: Config)
    requires forall risk :: risk != WideSpread && risk != PoorData ==> Charge(risk, s', c) == Charge(risk, s, c)
    ensures Penalty(s', c) - Penalty(s, c) ==
              (Charge(WideSpread, s', c) - Charge(WideSpread, s, c)) + (Charge(PoorData, s', c) - Charge(PoorData, s, c))
  {
    hide Charge;
  }

  lemma ComponentsMove(r: Row, r': Row, c: Config, log10: real -> real)
    requires ValidConfig(c)
    requires GapPct(r') == GapPct(r) && DollarVolume(r') == DollarVolume(r) && r'.volume == r.volume
    requires FloatRotation(r') == FloatRotation(r) && RangeControl(r') == RangeControl(r) && SqueezeCatalyst(r') == SqueezeCatalyst(r)
    ensures Components(r', c, log10) - Components(r, c, log10) ==
              (ExecutionQuality(r', c) - ExecutionQuality(r, c)) + (DataQuality(r') - DataQuality(r)) * 0.08
  {
    hide GapCurve, GapPct, LiquidityThrust, DollarVolume, FloatRotation, RangeControl, SqueezeCatalyst, ExecutionQuality, DataQuality;
  }

  lemma OnlyHigh(r: Row, high: real)
    requires r.low < high <= r.high
    ensures var r' := r.(high := high);
            && GapPct(r') == GapPct(r) && DollarVolume(r') == DollarVolume(r) && FloatRotation(r') == FloatRotation(r)
            && SqueezeCatalyst(r') == SqueezeCatalyst(r) && DataQuality(r') == DataQuality(r)
  {
  }

  // A high nearer the price never lowers it.
  lemma LowerHigh(r: Row, high: real, c: Config, log10: real -> real)
    requires ValidConfig(c) && r.spread >= 0.0 && r.low < high <= r.high
    ensures Score(r, c, log10) <= Score(r.(high := high), c, log10)
  {
    var r' := r.(high := high);
    RangeControlRises(r, r');
    OnlyHigh(r, high);
    hide GapPct, DollarVolume, FloatRotation, RangeControl, SqueezeCatalyst, DataQuality, ExecutionQuality, Components, Penalty, Present;
    NoNewRisk(r, r', c);
    BetterRow(r, r', c, log10);
  }

  // A higher price in a narrower range, or either alone.
  lemma RangeControlRises(r: Row, r': Row)
    requires r.low == r'.low && r'.high <= r.high && r.price <= r'.price && (r.high > r.low ==> r'.high > r.low)
    requires r.price > 0.0 || r.price == r'.price
    ensures RangeControl(r) <= RangeControl(r')
  {
    PositionRises(r, r');
    WidthFalls(r, r');
    hide RangePosition, RangeWidth;
  }

  lemma PositionRises(r: Row, r': Row)
    requires r.low == r'.low && r'.high <= r.high && r.price <= r'.price && (r.high > r.low ==> r'.high > r.low)
    ensures RangePosition(r) <= RangePosition(r')
  {
    var wide, narrow := r.high - r.low, r'.high - r.low;
    if wide > 0.0 && r.price > r.low {
      Quotients(r.price - r.low, r'.price - r.low, wide);
      Narrower(r'.price - r.low, narrow, wide);
    } else if wide > 0.0 {
      Ratio(r.price - r.low, wide, 0.0);
    }
  }

  lemma Narrower(x: real, narrow: real, wide: real)
    requires x >= 0.0 && 0.0 < narrow <= wide
    ensures x / wide <= x / narrow
  {
    Ratio(x, narrow, x / wide);
    assert (x / wide) * wide == x;
    Ratio(x, wide, 0.0);
    Scale(narrow, wide, x / wide);
  }

  lemma MoreToDivide(x: real, y: real, a: real, b: real)
    requires x <= y && 0.0 < a <= b
    ensures x / b <= if y / a >= 0.0 then y / a else 0.0
  {
    if x > 0.0 {
      Narrower(x, a, b);
      Quotients(x, y, a);
    } else {
      Ratio(x, b, 0.0);
    }
  }

  lemma WidthFalls(r: Row, r': Row)
    requires r.low == r'.low && r'.high <= r.high && r.price <= r'.price
    requires r.price > 0.0 || r.price == r'.price
    ensures RangeWidth(r') <= Max(RangeWidth(r), 0.0)
  {
    if r.price > 0.0 { MoreToDivide(r'.high - r.low, r.high - r.low, r.price, r'.price); }
  }

  lemma OnlyPrice(r: Row, price: real)
    requires 0.0 < r.price <= price
    ensures var r' := r.(price := price);
            FloatRotation(r') == FloatRotation(r) && SqueezeCatalyst(r') == SqueezeCatalyst(r) && DataQuality(r') == DataQuality(r)
  {
  }

  // A higher price never lowers it, inside the price band and up to the ideal gap.
  lemma HigherPrice(r: Row, price: real, c: Config, log10: real -> real)
    requires ValidConfig(c) && Rising(log10) && r.spread >= 0.0 && r.volume >= 0
    requires 0.0 < r.price <= price && c.minPrice <= r.price && price <= c.maxPrice
    requires GapPct(r.(price := price)) <= Min(c.idealHigh, c.maxCredible * 2.0)
    ensures Score(r, c, log10) <= Score(r.(price := price), c, log10)
  {
    var r' := r.(price := price);
    RangeControlRises(r, r');
    Scale(r.price, price, r.volume as real);
    assert DollarVolume(r) <= DollarVolume(r');
    LiquidityRises(DollarVolume(r), DollarVolume(r'), r.volume, r.volume, log10);
    OnlyPrice(r, price);
    if r.previousClose > 0.0 { Quotients(r.price - r.previousClose, price - r.previousClose, r.previousClose); }
    GapCurveRises(GapPct(r), GapPct(r'), c);
    hide GapPct, DollarVolume, FloatRotation, RangeControl, SqueezeCatalyst, DataQuality, Components, Penalty, Present, GapCurve;
    hide LiquidityThrust;
    NoNewRisk(r, r', c);
    BetterRow(r, r', c, log10);
  }

  // Past the ideal gap it can: this row loses the ten points of the falling curve.
  lemma PriceCanCost(log10: real -> real)
    ensures var c := Config(15.0, 35.0, 140.0, 300.0, 0.5, 50.0, 5.0, 0.0, 0);
            var r := Untraded(9.0);
            ValidConfig(c) && Score(r, c, log10) == 26.3 && Score(r.(price := 24.0), c, log10) == 16.3
  {
    hide Score;
    UntradedScores(9.0, 18.0, log10);
    UntradedScores(24.0, 8.0, log10);
  }

  function Untraded(price: real): Row
  {
    Row(6.0, 0.0, price, 9.0, 9.0, 0, Some(20000000.0), Some(1.0), Some(30.0), 1.0,
        true, false, false, false, true, true, false, None)
  }

  lemma UntradedScores(price: real, curve: real, log10: real -> real)
    requires (price == 9.0 && curve == 18.0) || (price == 24.0 && curve == 8.0)
    ensures var c := Config(15.0, 35.0, 140.0, 300.0, 0.5, 50.0, 5.0, 0.0, 0);
            Score(Untraded(price), c, log10) == curve + 8.3
  {
    var c, r := Config(15.0, 35.0, 140.0, 300.0, 0.5, 50.0, 5.0, 0.0, 0), Untraded(price);
    assert GapPct(r) == if price == 9.0 then 50.0 else 300.0;
    assert GapCurve(GapPct(r), c) == curve;
    assert DollarVolume(r) == 0.0 && DataQuality(r) == 70.0 && FloatRotation(r) == 0.0;
    assert RangeControl(r) == 9.5 && SqueezeCatalyst(r) == 13.0 && ExecutionQuality(r, c) == 10.2;
    assert Components(r, c, log10) == curve + 38.3;
    assert SetupOf(r) == Setup(r, if price == 9.0 then 50.0 else 300.0, 0.0, 70.0);
    hide GapPct, DollarVolume, DataQuality, Components, SetupOf;
    LoneRisk(Setup(r, if price == 9.0 then 50.0 else 300.0, 0.0, 70.0), c);
  }

  lemma LoneRisk(s: Setup, c: Config)
    requires forall risk :: Present(risk, s, c) <==> risk == NoVolume
    ensures Penalty(s, c) == 30.0
  {
    hide Present;
  }
}
