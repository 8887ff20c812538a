/**
  The signal score of a row: seven components with fixed bands less a risk penalty.
  Exact arithmetic before the final rounding; `log10` is given.
 */
module Formula {
  import opened Limits
  import opened Wrappers
  import opened WeightedSamples

  datatype Config = Config(minGap: real, idealLow: real, idealHigh: real, maxCredible: real, minPrice: real,
                           maxPrice: real, wideSpread: real, minDollarVolume: real, minShareVolume: int)

  datatype Row = Row(previousClose: real, gapPct: real, price: real, high: real, low: real, volume: int,
                     floatShares: Option<real>, marketCap: Option<real>, shortFloat: Option<real>, spread: real,
                     hasNews: bool, halted: bool, offering: bool, reverseSplit: bool, timestamped: bool,
                     enriched: bool, stale: bool, sourceConfidence: Option<real>)

  predicate ValidConfig(c: Config)
  {
    c.minGap < c.idealLow < c.idealHigh < c.maxCredible
  }

  // ---------- Gap curve ----------

  function GapPct(r: Row): real
  {
    if r.previousClose <= 0.0 then (if r.gapPct != 0.0 then r.gapPct else 0.0)
    else (r.price - r.previousClose) / r.previousClose * 100.0
  }

  function GapCurve(gap: real, c: Config): real
    requires ValidConfig(c)
  {
    if gap <= 0.0 then 0.0
    else if gap < c.minGap then Clamp(gap / c.minGap * 7.0, 0.0, 7.0)
    else if gap < c.idealLow then 7.0 + (gap - c.minGap) / (c.idealLow - c.minGap) * 11.0
    else if gap <= c.idealHigh then 18.0
    else if gap <= c.maxCredible then 18.0 - (gap - c.idealHigh) / (c.maxCredible - c.idealHigh) * 10.0
    else 4.0
  }

  lemma Quotients(a: real, b: real, s: real)
    requires s > 0.0
    ensures a <= b ==> a / s <= b / s
    ensures 0.0 <= a ==> 0.0 <= a / s
    ensures a <= s ==> a / s <= 1.0
  {
    Ratio(a, s, b / s);
    Ratio(b, s, b / s);
    Ratio(a, s, 0.0);
    Ratio(a, s, 1.0);
  }

  lemma GapCurveIsBounded(gap: real, c: Config)
    requires ValidConfig(c)
    ensures 0.0 <= GapCurve(gap, c) <= 18.0
    ensures c.idealHigh < gap && 0.0 < gap ==> GapCurve(gap, c) < 18.0
  {
    Quotients(gap - c.minGap, gap, c.idealLow - c.minGap);
    Quotients(gap - c.idealHigh, gap, c.maxCredible - c.idealHigh);
    Ratio(gap - c.idealHigh, c.maxCredible - c.idealHigh, 0.0);
  }

  // Up to the ideal high a larger gap never scores less.
  lemma GapCurveRises(x: real, y: real, c: Config)
    requires ValidConfig(c) && x <= y <= c.idealHigh
    ensures GapCurve(x, c) <= GapCurve(y, c)
  {
    GapCurveIsBounded(x, c);
    GapCurveIsBounded(y, c);
    if 0.0 < x && y < c.minGap { Quotients(x, y, c.minGap); }
    Quotients(x - c.minGap, y - c.minGap, c.idealLow - c.minGap);
    Quotients(y - c.minGap, y, c.idealLow - c.minGap);
  }

  lemma GapCurveFallsFrom(x: real, y: real, c: Config)
    requires ValidConfig(c) && 0.0 < c.idealLow <= x <= y
    ensures GapCurve(y, c) <= GapCurve(x, c)
  {
    GapCurveIsBounded(y, c);
    Quotients(x - c.idealHigh, y - c.idealHigh, c.maxCredible - c.idealHigh);
    Quotients(x - c.idealHigh, x, c.maxCredible - c.idealHigh);
  }

  // From the ideal low on a larger gap never scores more, if the ideal low is positive;
  // validation does not ask for that, and without it the curve jumps up at zero.
  lemma GapCurveFalls(c: Config)
    requires ValidConfig(c)
    ensures (forall x, y :: c.idealLow <= x <= y ==> GapCurve(y, c) <= GapCurve(x, c)) <==> c.idealLow > 0.0
  {
    if c.idealLow > 0.0 {
      forall x, y | c.idealLow <= x <= y ensures GapCurve(y, c) <= GapCurve(x, c) { GapCurveFallsFrom(x, y, c); }
    } else {
      var y := Max(c.maxCredible, 0.0) + 1.0;
      assert GapCurve(y, c) == 4.0 && GapCurve(c.idealLow, c) == 0.0;
    }
  }

  // ---------- The other components ----------

  function LiquidityThrust(dollarVolume: real, shares: int, log10: real -> real): real
  {
    (if dollarVolume > 0.0 then Clamp((log10(dollarVolume) - 5.4) * 6.0, 0.0, 14.0) else 0.0)
    + if shares > 0 then Clamp((log10(shares as real) - 5.0) * 4.0, 0.0, 6.0) else 0.0
  }

  predicate FloatKnown(r: Row) { r.floatShares.Some? && r.floatShares.value > 0.0 }

  function FloatRotation(r: Row): real
  {
    if FloatKnown(r) then Clamp(r.volume as real / r.floatShares.value * 100.0 / 8.0 * 14.0, 0.0, 14.0) else 0.0
  }

  function RangePosition(r: Row): real
  {
    if r.high - r.low <= 0.0 then 50.0
    else Clamp((r.price - r.low) / (r.high - r.low) * 100.0, 0.0, 100.0)
  }

  function RangeWidth(r: Row): real
  {
    if r.price <= 0.0 then 0.0 else (r.high - r.low) / r.price * 100.0
  }

  function RangeControl(r: Row): real
  {
    Clamp(RangePosition(r) / 100.0 * 11.0, 0.0, 11.0) + (4.0 - Clamp((RangeWidth(r) - 45.0) * 0.18, 0.0, 4.0))
  }

  function SqueezeCatalyst(r: Row): real
  {
    (if r.hasNews then 5.0 else 0.0)
    + Clamp((if r.shortFloat.Some? then r.shortFloat.value else 0.0) / 30.0 * 5.0, 0.0, 5.0)
    + if !FloatKnown(r) then 0.0
      else if r.floatShares.value <= 20000000.0 then 3.0
      else if r.floatShares.value <= 50000000.0 then 2.0
      else if r.floatShares.value <= 100000000.0 then 1.0
      else 0.0
  }

  function ExecutionQuality(r: Row, c: Config): real
  {
    Clamp(10.0 - r.spread * 1.8, 0.0, 10.0) + if c.minPrice <= r.price <= c.maxPrice then 2.0 else 0.0
  }

  function If(holds: bool, points: real): real { if holds then points else 0.0 }

  function DataQuality(r: Row): real
  {
    If(r.previousClose > 0.0, 15.0) + If(r.price > 0.0, 15.0) + If(r.high > r.low > 0.0, 15.0)
    + If(r.volume > 0, 15.0) + If(r.timestamped, 10.0) + If(r.enriched, 15.0) + If(!r.stale, 5.0)
    + If(r.spread > 0.0, 5.0) + If(FloatKnown(r), 2.0) + If(r.marketCap.Some? && r.marketCap.value > 0.0, 2.0)
    + If(r.shortFloat.Some?, 1.0)
  }

  function DollarVolume(r: Row): real { r.price * r.volume as real }

  // The sum of the components with every weight at its default of one.
  function Components(r: Row, c: Config, log10: real -> real): real
    requires ValidConfig(c)
  {
    GapCurve(GapPct(r), c) + LiquidityThrust(DollarVolume(r), r.volume, log10) + FloatRotation(r) + RangeControl(r)
    + SqueezeCatalyst(r) + ExecutionQuality(r, c) + DataQuality(r) / 100.0 * 8.0
  }

  // ---------- Risk ----------

  datatype Reason = NoPreviousClose | ZeroVolume | CurrentHalt | RecentOffering | PriceBelowMin | PriceAboveMax
                  | GapBelowMin | LowDollarVolume | LowShareVolume

  predicate Applies(reason: Reason, r: Row, gap: real, dollarVolume: real, c: Config)
  {
    match reason
    case NoPreviousClose => r.previousClose <= 0.0 && r.gapPct <= 0.0
    case ZeroVolume => r.volume <= 0
    case CurrentHalt => r.halted
    case RecentOffering => r.offering
    case PriceBelowMin => r.price < c.minPrice
    case PriceAboveMax => r.price > c.maxPrice
    case GapBelowMin => gap < c.minGap
    case LowDollarVolume => dollarVolume < c.minDollarVolume
    case LowShareVolume => r.volume < c.minShareVolume
  }

  function Rank(reason: Reason): nat
  {
    match reason
    case NoPreviousClose => 0 case ZeroVolume => 1 case CurrentHalt => 2 case RecentOffering => 3
    case PriceBelowMin => 4 case PriceAboveMax => 5 case GapBelowMin => 6 case LowDollarVolume => 7
    case LowShareVolume => 8
  }

  // The reasons of the first `k` checks are listed, and no others.
  ghost predicate Listed(reasons: seq<Reason>, k: nat, r: Row, gap: real, dollarVolume: real, c: Config)
  {
    forall reason :: reason in reasons <==> Rank(reason) < k && Applies(reason, r, gap, dollarVolume, c)
  }

  lemma OneMore(reasons: seq<Reason>, reason: Reason, r: Row, gap: real, dollarVolume: real, c: Config)
    requires Listed(reasons, Rank(reason), r, gap, dollarVolume, c)
    ensures Listed(if Applies(reason, r, gap, dollarVolume, c) then reasons + [reason] else reasons,
                   Rank(reason) + 1, r, gap, dollarVolume, c)
  {
    assert forall x :: Rank(x) == Rank(reason) ==> x == reason;
  }

  method AvoidReasons(r: Row, gap: real, dollarVolume: real, c: Config) returns (reasons: seq<Reason>)
    ensures forall reason :: reason in reasons <==> Applies(reason, r, gap, dollarVolume, c)
  {
    hide Listed;
    reasons := [];
    NoneYet(r, gap, dollarVolume, c);
    OneMore(reasons, NoPreviousClose, r, gap, dollarVolume, c);
    if r.previousClose <= 0.0 {
      if r.gapPct <= 0.0 { reasons := reasons + [NoPreviousClose]; }
    }
    OneMore(reasons, ZeroVolume, r, gap, dollarVolume, c);
    if r.volume <= 0 { reasons := reasons + [ZeroVolume]; }
    OneMore(reasons, CurrentHalt, r, gap, dollarVolume, c);
    if r.halted { reasons := reasons + [CurrentHalt]; }
    OneMore(reasons, RecentOffering, r, gap, dollarVolume, c);
    if r.offering { reasons := reasons + [RecentOffering]; }
    OneMore(reasons, PriceBelowMin, r, gap, dollarVolume, c);
    if r.price < c.minPrice { reasons := reasons + [PriceBelowMin]; }
    OneMore(reasons, PriceAboveMax, r, gap, dollarVolume, c);
    if r.price > c.maxPrice { reasons := reasons + [PriceAboveMax]; }
    OneMore(reasons, GapBelowMin, r, gap, dollarVolume, c);
    if gap < c.minGap { reasons := reasons + [GapBelowMin]; }
    OneMore(reasons, LowDollarVolume, r, gap, dollarVolume, c);
    if dollarVolume < c.minDollarVolume { reasons := reasons + [LowDollarVolume]; }
    OneMore(reasons, LowShareVolume, r, gap, dollarVolume, c);
    if r.volume < c.minShareVolume { reasons := reasons + [LowShareVolume]; }
    AllListed(reasons, r, gap, dollarVolume, c);
  }

  lemma NoneYet(r: Row, gap: real, dollarVolume: real, c: Config)
    ensures Listed([], 0, r, gap, dollarVolume, c)
  {
  }

  lemma AllListed(reasons: seq<Reason>, r: Row, gap: real, dollarVolume: real, c: Config)
    requires Listed(reasons, 9, r, gap, dollarVolume, c)
    ensures forall reason :: reason in reasons <==> Applies(reason, r, gap, dollarVolume, c)
  {
    assert forall reason :: Rank(reason) < 9;
  }

  datatype Risk = Halt | Offering | Split | UnknownFloat | NoClose | NoVolume | WideSpread | Cheap | Expensive
                | Quiet | Thin | LargeGap | HugeGap | PoorData | Stale | PoorSource

  // A row with the figures derived from it.
  datatype Setup = Setup(r: Row, gap: real, dollarVolume: real, quality: real)

  predicate Present(risk: Risk, s: Setup, c: Config)
  {
    match risk
    case Halt => s.r.halted
    case Offering => s.r.offering
    case Split => s.r.reverseSplit
    case UnknownFloat => !FloatKnown(s.r)
    case NoClose => s.r.previousClose <= 0.0 && s.r.gapPct <= 0.0
    case NoVolume => s.r.volume <= 0
    case WideSpread => s.r.spread >= c.wideSpread
    case Cheap => s.r.price < c.minPrice
    case Expensive => s.r.price > c.maxPrice
    case Quiet => s.dollarVolume < c.minDollarVolume
    case Thin => s.r.volume < c.minShareVolume
    case LargeGap => s.gap > c.maxCredible
    case HugeGap => s.gap > c.maxCredible * 2.0
    case PoorData => s.quality < 65.0
    case Stale => s.r.stale
    case PoorSource => s.r.sourceConfidence.Some? && s.r.sourceConfidence.value != 0.0 && s.r.sourceConfidence.value < 50.0
  }

  function Points(risk: Risk, s: Setup): real
  {
    match risk
    case Halt => 95.0
    case Offering => 28.0
    case Split => 8.0
    case UnknownFloat => 5.0
    case NoClose => 35.0
    case NoVolume => 30.0
    case WideSpread => Min(s.r.spread * 2.5, 25.0)
    case Cheap => 18.0
    case Expensive => 12.0
    case Quiet => 12.0
    case Thin => 8.0
    case LargeGap => 12.0
    case HugeGap => 12.0
    case PoorData => 8.0
    case Stale => 10.0
    case PoorSource => 6.0
  }

  // What one risk adds to the penalty.
  function Charge(risk: Risk, s: Setup, c: Config): real
  {
    If(Present(risk, s, c), Points(risk, s))
  }

  function Penalty(s: Setup, c: Config): real
  {
    Charge(Halt, s, c) + Charge(Offering, s, c) + Charge(Split, s, c) + Charge(UnknownFloat, s, c)
    + Charge(NoClose, s, c) + Charge(NoVolume, s, c) + Charge(WideSpread, s, c) + Charge(Cheap, s, c)
    + Charge(Expensive, s, c) + Charge(Quiet, s, c) + Charge(Thin, s, c) + Charge(LargeGap, s, c)
    + Charge(HugeGap, s, c) + Charge(PoorData, s, c) + Charge(Stale, s, c) + Charge(PoorSource, s, c)
  }

  method RiskPenalty(r: Row, gap: real, dollarVolume: real, quality: real, c: Config) returns (penalty: real)
    ensures penalty == Penalty(Setup(r, gap, dollarVolume, quality), c)
    ensures r.spread >= 0.0 ==> forall risk :: penalty >= Charge(risk, Setup(r, gap, dollarVolume, quality), c) >= 0.0
  {
    hide Charge;
    ghost var s := Setup(r, gap, dollarVolume, quality);
    ChargesAre(s, c);
    penalty := 0.0;
    if r.halted { penalty := penalty + 95.0; }
    if r.offering { penalty := penalty + 28.0; }
    if r.reverseSplit { penalty := penalty + 8.0; }
    assert penalty == Charge(Halt, s, c) + Charge(Offering, s, c) + Charge(Split, s, c);
    ghost var sum1 := penalty;
    if !FloatKnown(r) { penalty := penalty + 5.0; }
    if r.previousClose <= 0.0 && r.gapPct <= 0.0 { penalty := penalty + 35.0; }
    if r.volume <= 0 { penalty := penalty + 30.0; }
    assert penalty == sum1 + Charge(UnknownFloat, s, c) + Charge(NoClose, s, c) + Charge(NoVolume, s, c);
    ghost var sum2 := penalty;
    if r.spread >= c.wideSpread { penalty := penalty + Min(r.spread * 2.5, 25.0); }
    if r.price < c.minPrice { penalty := penalty + 18.0; }
    if r.price > c.maxPrice { penalty := penalty + 12.0; }
    assert penalty == sum2 + Charge(WideSpread, s, c) + Charge(Cheap, s, c) + Charge(Expensive, s, c);
    ghost var sum3 := penalty;
    if dollarVolume < c.minDollarVolume { penalty := penalty + 12.0; }
    if r.volume < c.minShareVolume { penalty := penalty + 8.0; }
    if gap > c.maxCredible { penalty := penalty + 12.0; }
    if gap > c.maxCredible * 2.0 { penalty := penalty + 12.0; }
    assert penalty == sum3 + Charge(Quiet, s, c) + Charge(Thin, s, c) + Charge(LargeGap, s, c) + Charge(HugeGap, s, c);
    ghost var sum4 := penalty;
    if quality < 65.0 { penalty := penalty + 8.0; }
    if r.stale { penalty := penalty + 10.0; }
    if r.sourceConfidence.Some? && r.sourceConfidence.value != 0.0 && r.sourceConfidence.value < 50.0 {
      penalty := penalty + 6.0;
    }
    if r.spread >= 0.0 { EveryRiskIsCharged(s, c); }
  }

  lemma ChargesAre(s: Setup, c: Config)
    ensures Charge(Halt, s, c) == If(s.r.halted, 95.0)
    ensures Charge(Offering, s, c) == If(s.r.offering, 28.0)
    ensures Charge(Split, s, c) == If(s.r.reverseSplit, 8.0)
    ensures Charge(UnknownFloat, s, c) == If(!FloatKnown(s.r), 5.0)
    ensures Charge(NoClose, s, c) == If(s.r.previousClose <= 0.0 && s.r.gapPct <= 0.0, 35.0)
    ensures Charge(NoVolume, s, c) == If(s.r.volume <= 0, 30.0)
    ensures Charge(WideSpread, s, c) == If(s.r.spread >= c.wideSpread, Min(s.r.spread * 2.5, 25.0))
    ensures Charge(Cheap, s, c) == If(s.r.price < c.minPrice, 18.0)
    ensures Charge(Expensive, s, c) == If(s.r.price > c.maxPrice, 12.0)
    ensures Charge(Quiet, s, c) == If(s.dollarVolume < c.minDollarVolume, 12.0)
    ensures Charge(Thin, s, c) == If(s.r.volume < c.minShareVolume, 8.0)
    ensures Charge(LargeGap, s, c) == If(s.gap > c.maxCredible, 12.0)
    ensures Charge(HugeGap, s, c) == If(s.gap > c.maxCredible * 2.0, 12.0)
    ensures Charge(PoorData, s, c) == If(s.quality < 65.0, 8.0)
    ensures Charge(Stale, s, c) == If(s.r.stale, 10.0)
    ensures Charge(PoorSource, s, c) == If(s.r.sourceConfidence.Some? && s.r.sourceConfidence.value != 0.0 && s.r.sourceConfidence.value < 50.0, 6.0)
  {
    hide If, FloatKnown, Min;
  }

  lemma PointsAreNotNegative(risk: Risk, s: Setup)
    requires s.r.spread >= 0.0
    ensures Points(risk, s) >= 0.0
  {
  }

  lemma OneOfAll(risk: Risk, s: Setup, c: Config)
    requires forall other :: Charge(other, s, c) >= 0.0
    ensures Penalty(s, c) >= Charge(risk, s, c)
  {
    hide Charge;
  }

  // No risk is offset by anything else, and only risks without points leave no penalty.
  lemma EveryRiskIsCharged(s: Setup, c: Config)
    requires s.r.spread >= 0.0
    ensures forall risk :: Penalty(s, c) >= Charge(risk, s, c) >= 0.0
    ensures forall risk :: Present(risk, s, c) ==> Penalty(s, c) >= Points(risk, s) >= 0.0
    ensures Penalty(s, c) == 0.0 <==> forall risk :: Present(risk, s, c) ==> Points(risk, s) == 0.0
  {
    hide Present, Points, Penalty;
    forall risk ensures Charge(risk, s, c) >= 0.0 && Points(risk, s) >= 0.0 { PointsAreNotNegative(risk, s); }
    forall risk ensures Penalty(s, c) >= Charge(risk, s, c) { OneOfAll(risk, s, c); }
    forall risk ensures Present(risk, s, c) ==> Charge(risk, s, c) == Points(risk, s) {}
    if forall risk :: Present(risk, s, c) ==> Points(risk, s) == 0.0 {
      forall risk ensures Charge(risk, s, c) == 0.0 {}
      NothingIsCharged(s, c);
    }
  }

  lemma NothingIsCharged(s: Setup, c: Config)
    requires forall risk :: Charge(risk, s, c) == 0.0
    ensures Penalty(s, c) == 0.0
  {
    hide Charge;
  }

  // A row with every risk of another, and a spread no narrower, is penalised at least as much.
  lemma PenaltyGrows(s: Setup, s': Setup, c: Config)
    requires 0.0 <= s.r.spread <= s'.r.spread
    requires forall risk :: Present(risk, s, c) ==> Present(risk, s', c)
    ensures Penalty(s, c) <= Penalty(s', c)
  {
    hide Present, Points, Penalty;
    forall risk ensures Charge(risk, s, c) <= Charge(risk, s', c) { PointsGrow(risk, s, s'); }
    SumGrows(s, s', c);
  }

  lemma PointsGrow(risk: Risk, s: Setup, s': Setup)
    requires 0.0 <= s.r.spread <= s'.r.spread
    ensures 0.0 <= Points(risk, s) <= Points(risk, s')
  {
  }

  lemma SumGrows(s: Setup, s': Setup, c: Config)
    requires forall risk :: Charge(risk, s, c) <= Charge(risk, s', c)
    ensures Penalty(s, c) <= Penalty(s', c)
  {
    hide Charge;
  }

  // ---------- The score ----------

  datatype Grade = Avoid | APlus | A | B | C | D

  function SetupGrade(score: real, avoided: bool): Grade
  {
    if avoided then Avoid
    else if score >= 90.0 then APlus
    else if score >= 80.0 then A
    else if score >= 70.0 then B
    else if score >= 55.0 then C
    else D
  }

  function SetupOf(r: Row): Setup
  {
    Setup(r, GapPct(r), DollarVolume(r), DataQuality(r))
  }

  function Score(r: Row, c: Config, log10: real -> real): real
    requires ValidConfig(c)
  {
    Clamp(Components(r, c, log10) - Penalty(SetupOf(r), c), 0.0, 100.0)
  }

  ghost predicate Avoided(r: Row, c: Config)
  {
    exists reason :: Applies(reason, r, GapPct(r), DollarVolume(r), c)
  }

  lemma BandsOf(r: Row, c: Config, log10: real -> real)
    ensures 0.0 <= LiquidityThrust(DollarVolume(r), r.volume, log10) <= 20.0
    ensures 0.0 <= FloatRotation(r) <= 14.0 && 0.0 <= RangeControl(r) <= 15.0
    ensures 0.0 <= SqueezeCatalyst(r) <= 13.0 && 0.0 <= ExecutionQuality(r, c) <= 12.0
    ensures 0.0 <= DataQuality(r) <= 100.0
  {
    hide DollarVolume, RangePosition, RangeWidth;
  }

  // A spread costs execution points and an unknown one costs data points.
  lemma SpreadAlwaysCosts(r: Row, c: Config)
    ensures ExecutionQuality(r, c) < 12.0 || DataQuality(r) <= 95.0
  {
    hide FloatKnown;
  }

  // The seven bands fill the scale of 100, but no row reaches it.
  lemma ComponentsAreBounded(r: Row, c: Config, log10: real -> real)
    requires ValidConfig(c)
    ensures 0.0 <= Components(r, c, log10) < 100.0
  {
    SpreadAlwaysCosts(r, c);
    hide GapCurve, GapPct, LiquidityThrust, FloatRotation, RangeControl, SqueezeCatalyst, ExecutionQuality, DataQuality;
    GapCurveIsBounded(GapPct(r), c);
    BandsOf(r, c, log10);
  }

  // A spread takes its execution points off the sum.
  lemma SpreadLosesExecution(r: Row, c: Config, log10: real -> real)
    requires ValidConfig(c) && r.spread >= 0.0
    ensures Components(r, c, log10) <= 100.0 - Min(r.spread * 1.8, 10.0)
  {
    GapCurveIsBounded(GapPct(r), c);
    BandsOf(r, c, log10);
    assert ExecutionQuality(r, c) <= 12.0 - Min(r.spread * 1.8, 10.0);
    hide GapCurve, GapPct, LiquidityThrust, FloatRotation, RangeControl, SqueezeCatalyst, ExecutionQuality, DataQuality;
  }

  // A penalty comes off the top of the scale, whatever the components; with no negative
  // spread it is never a bonus.
  lemma PenaltyLowersTheCeiling(r: Row, c: Config, log10: real -> real)
    requires ValidConfig(c)
    ensures var penalty := Penalty(SetupOf(r), c);
            && Score(r, c, log10) <= Max(0.0, 100.0 - penalty)
            && (r.spread >= 0.0 ==> penalty >= 0.0)
  {
    hide Components, GapPct, DollarVolume, DataQuality;
    ComponentsAreBounded(r, c, log10);
    if r.spread >= 0.0 { EveryRiskIsCharged(SetupOf(r), c); }
    hide Penalty;
  }

  // A halted name scores at most 5 and is graded to avoid.
  lemma HaltedScoresNothing(r: Row, c: Config, log10: real -> real)
    requires ValidConfig(c) && r.halted && r.spread >= 0.0
    ensures Score(r, c, log10) <= 5.0 && Avoided(r, c)
    ensures SetupGrade(Score(r, c, log10), Avoided(r, c)) == Avoid
  {
    hide Components, GapPct, DollarVolume, DataQuality;
    ComponentsAreBounded(r, c, log10);
    EveryRiskIsCharged(SetupOf(r), c);
    assert Charge(Halt, SetupOf(r), c) == 95.0;
    assert Applies(CurrentHalt, r, GapPct(r), DollarVolume(r), c);
    hide Penalty;
  }

  // The best grade is given to nothing that is halted, diluted, thin, off the price band,
  // outside the credible gaps, or, where its spread counts as wide, wider than 10/4.3: what it
  // loses in execution points and in the penalty is too much.
  lemma TopGradeIsClean(r: Row, c: Config, log10: real -> real)
    requires ValidConfig(c) && r.spread >= 0.0
    requires SetupGrade(Score(r, c, log10), Avoided(r, c)) == APlus
    ensures !r.halted && !r.offering && r.volume > 0 && r.volume >= c.minShareVolume
    ensures c.minPrice <= r.price <= c.maxPrice && c.minGap <= GapPct(r) <= c.maxCredible
    ensures r.spread < c.wideSpread || 4.3 * r.spread <= 10.0
  {
    hide Components, GapPct, DollarVolume, DataQuality;
    ComponentsAreBounded(r, c, log10);
    EveryRiskIsCharged(SetupOf(r), c);
    ChargesAre(SetupOf(r), c);
    SpreadLosesExecution(r, c, log10);
    hide Charge;
    forall reason ensures !Applies(reason, r, GapPct(r), DollarVolume(r), c) {}
    assert !Applies(CurrentHalt, r, GapPct(r), DollarVolume(r), c);
    assert !Applies(ZeroVolume, r, GapPct(r), DollarVolume(r), c);
    assert !Applies(PriceBelowMin, r, GapPct(r), DollarVolume(r), c);
    assert !Applies(PriceAboveMax, r, GapPct(r), DollarVolume(r), c);
    assert !Applies(GapBelowMin, r, GapPct(r), DollarVolume(r), c);
    assert !Applies(LowShareVolume, r, GapPct(r), DollarVolume(r), c);
    hide Penalty, Applies;
  }

  // The bound is tight: this row misses 100 by what its spread costs, however small.
  lemma ScaleIsFilled(spread: real, log10: real -> real)
    requires 0.0 < spread < 5.0 && log10(90000000.0) >= 8.0 - 0.25 && log10(10000000.0) >= 7.0 - 0.25
    ensures var c := Config(15.0, 35.0, 140.0, 300.0, 0.5, 50.0, 5.0, 500000.0, 100000);
            var r := Row(6.0, 0.0, 9.0, 9.0, 8.5, 10000000, Some(20000000.0), Some(1.0), Some(30.0), spread,
                         true, false, false, false, true, true, false, None);
            Components(r, c, log10) == Score(r, c, log10) == 100.0 - spread * 1.8 && !Avoided(r, c)
  {
    var c := Config(15.0, 35.0, 140.0, 300.0, 0.5, 50.0, 5.0, 500000.0, 100000);
    var r := Row(6.0, 0.0, 9.0, 9.0, 8.5, 10000000, Some(20000000.0), Some(1.0), Some(30.0), spread,
                 true, false, false, false, true, true, false, None);
    assert GapPct(r) == 50.0 && DollarVolume(r) == 90000000.0;
    assert GapCurve(50.0, c) == 18.0 && LiquidityThrust(90000000.0, 10000000, log10) == 20.0;
    assert FloatRotation(r) == 14.0 && SqueezeCatalyst(r) == 13.0;
    assert RangePosition(r) == 100.0 && RangeControl(r) == 15.0;
    assert ExecutionQuality(r, c) == 12.0 - spread * 1.8 && DataQuality(r) == 100.0;
    assert SetupOf(r) == Setup(r, 50.0, 90000000.0, 100.0);
    EveryRiskIsCharged(SetupOf(r), c);
  }
}
