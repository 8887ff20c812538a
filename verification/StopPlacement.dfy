/**
  The stop of a scored row: a fraction of the observed premarket range, floored, capped,
  tightened to the premarket low and rounded up to a price tick. Exact arithmetic.
 */
module StopPlacement {
  import opened Limits
  import opened Wrappers
  import opened WeightedSamples

  // Distances are percentages of the entry.
  datatype Config = Config(rangeFraction: real, minPct: real, maxPct: real)

  datatype Basis = PremarketLow | NoRange | DistanceCap | DistanceFloor | RangeFraction

  // `inside`: the stop lies inside the observed range by more than a tick.
  datatype Placement = Placement(stop: real, basis: Basis, inside: bool)

  const TICK: real := 0.0001

  predicate ValidConfig(c: Config)
  {
    0.0 < c.rangeFraction <= 1.0 && 0.0 < c.minPct < c.maxPct
  }

  // ---------- Ticks ----------

  // math.ceil(x * 10_000)
  function CeilTicks(x: real): (n: int)
    ensures x * 10000.0 <= n as real < x * 10000.0 + 1.0
  {
    -((-x * 10000.0).Floor)
  }

  // A whole number of ticks.
  ghost predicate OnTick(x: real)
  {
    exists n: int :: x == Ticks(n)
  }

  function Ticks(n: int): real
  {
    n as real / 10000.0
  }

  // Rounding up to the tick finds the least tick that is not below.
  lemma CeilIsLeast(x: real, n: int)
    ensures x <= Ticks(CeilTicks(x))
    ensures x <= Ticks(n) <==> CeilTicks(x) <= n
  {
    if CeilTicks(x) <= n {
      assert CeilTicks(x) as real <= n as real;
    } else {
      assert n + 1 <= CeilTicks(x) && (n + 1) as real <= CeilTicks(x) as real;
    }
  }

  // ---------- The stop ----------

  function FloorDistance(entry: real, c: Config): real { entry * (c.minPct / 100.0) }

  function CapDistance(entry: real, c: Config): real { entry * (c.maxPct / 100.0) }

  function RangeDistance(range: real, c: Config): real { range * c.rangeFraction }

  // The distance that volatility asks for, between the floor and the cap.
  function BandDistance(entry: real, range: real, c: Config): real
  {
    var wanted := RangeDistance(range, c);
    Min(Max(if wanted > 0.0 then wanted else FloorDistance(entry, c), FloorDistance(entry, c)), CapDistance(entry, c))
  }

  function StructuralLow(low: real): real { low * 0.985 }

  // The tighter of the volatility band and the premarket low.
  function Unrounded(entry: real, low: real, range: real, c: Config): real
  {
    Max(entry - BandDistance(entry, range, c), StructuralLow(low))
  }

  function Rounded(stop: real): real
  {
    Max(Ticks(CeilTicks(stop)), TICK)
  }

  method VolatilityAwareStop(entry: real, low: real, range: real, c: Config) returns (p: Placement)
    requires ValidConfig(c) && entry > 0.0
    ensures p.stop == Rounded(Unrounded(entry, low, range, c))
    ensures p.basis == PremarketLow <==> StructuralLow(low) > entry - BandDistance(entry, range, c)
    ensures p.basis != PremarketLow ==>
      && (p.basis == NoRange <==> RangeDistance(range, c) <= 0.0)
      && (p.basis == DistanceCap <==> RangeDistance(range, c) >= CapDistance(entry, c))
      && (p.basis == DistanceFloor <==> 0.0 < RangeDistance(range, c) <= FloorDistance(entry, c))
    ensures p.stop == 0.0001 || p.stop - 0.0001 < low * 0.985 || entry - p.stop > entry * (c.minPct / 100.0) - 0.0001
    ensures p.basis == RangeFraction ==> p.stop == 0.0001 || 0.0 <= p.stop - (entry - range * c.rangeFraction) < 0.0001
    ensures p.inside <==> RangeDistance(range, c) > 0.0 && RangeDistance(range, c) - (entry - p.stop) > TICK
  {
    hide FloorDistance, CapDistance, StructuralLow, CeilTicks;
    var floorDistance, capDistance := FloorDistance(entry, c), CapDistance(entry, c);
    FloorBelowCap(entry, c);
    var rangeDistance := RangeDistance(range, c);
    var proposed := if rangeDistance > 0.0 then rangeDistance else floorDistance;
    var distance := Min(Max(proposed, floorDistance), capDistance);
    var structuralLow := StructuralLow(low);
    var stop := entry - distance;
    var basis: Basis;
    if structuralLow > stop {
      stop := structuralLow;
      distance := entry - stop;
      basis := PremarketLow;
    } else if rangeDistance <= 0.0 {
      basis := NoRange;
    } else if distance >= capDistance {
      basis := DistanceCap;
    } else if distance <= floorDistance {
      basis := DistanceFloor;
    } else {
      basis := RangeFraction;
    }
    stop := Max(Ticks(CeilTicks(stop)), TICK);
    StopIsTheTighterLevel(entry, low, range, c);
    StopAtRange(entry, low, range, c);
    var finalDistance := entry - stop;
    p := Placement(stop, basis, rangeDistance > 0.0 && rangeDistance - finalDistance > TICK);
  }

  lemma FloorBelowCap(entry: real, c: Config)
    requires ValidConfig(c) && entry > 0.0
    ensures 0.0 < FloorDistance(entry, c) < CapDistance(entry, c)
  {
    assert entry * ((c.maxPct - c.minPct) / 100.0) > 0.0;
    assert entry * ((c.maxPct - c.minPct) / 100.0) == CapDistance(entry, c) - FloorDistance(entry, c);
  }

  // The band is the configured fraction of the range, never under the configured minimum or
  // over the configured maximum of the entry.
  lemma BandIsClamped(entry: real, range: real, c: Config)
    requires ValidConfig(c) && entry > 0.0
    ensures var band, wanted, least, most :=
              BandDistance(entry, range, c), range * c.rangeFraction, entry * (c.minPct / 100.0), entry * (c.maxPct / 100.0);
            && 0.0 < least <= band <= most
            && (least <= wanted <= most ==> band == wanted)
            && (wanted <= least ==> band == least)
            && (most <= wanted ==> band == most)
  {
    FloorBelowCap(entry, c);
  }

  // The stop is a whole number of ticks, at least one, and never under the band's level or
  // 0.985 of the premarket low; it is less than a tick over the higher of the two.
  lemma StopIsTheTighterLevel(entry: real, low: real, range: real, c: Config)
    requires ValidConfig(c) && entry > 0.0
    ensures var stop := Rounded(Unrounded(entry, low, range, c));
            var wanted, least, most := range * c.rangeFraction, entry * (c.minPct / 100.0), entry * (c.maxPct / 100.0);
            && OnTick(stop) && stop >= 0.0001 && stop >= low * 0.985 && entry - stop <= most
            && (wanted <= least ==> entry - stop <= least)
            && (least <= wanted <= most ==> stop >= entry - wanted)
            && (stop > 0.0001 && stop - 0.0001 >= low * 0.985 ==>
                  && entry - stop > least - 0.0001
                  && (least <= wanted <= most ==> stop < entry - wanted + 0.0001)
                  && (most <= wanted ==> entry - stop > most - 0.0001))
  {
    BandIsClamped(entry, range, c);
    var u := Unrounded(entry, low, range, c);
    CeilIsLeast(u, 0);
    assert Ticks(1) == TICK;
    assert OnTick(Rounded(u));
    hide BandDistance, FloorDistance, CapDistance, RangeDistance;
  }

  lemma StopAtRange(entry: real, low: real, range: real, c: Config)
    requires ValidConfig(c) && entry > 0.0
    ensures var stop, wanted := Rounded(Unrounded(entry, low, range, c)), range * c.rangeFraction;
            FloorDistance(entry, c) <= wanted <= CapDistance(entry, c) && StructuralLow(low) <= entry - wanted ==>
              stop == 0.0001 || 0.0 <= stop - (entry - wanted) < 0.0001
  {
    BandIsClamped(entry, range, c);
    CeilIsLeast(entry - range * c.rangeFraction, 0);
  }

  // ---------- Risk ----------

  // Rounding is towards the entry: the plan never risks more than the configured maximum.
  lemma NeverBeyondTheCap(entry: real, low: real, range: real, c: Config)
    requires ValidConfig(c) && entry > 0.0
    ensures entry - Rounded(Unrounded(entry, low, range, c)) <= CapDistance(entry, c)
  {
    hide CeilTicks, Ticks, CapDistance, FloorDistance;
    CeilIsLeast(Unrounded(entry, low, range, c), 0);
  }

  // The stop stays at or under the entry exactly when the structural low does.
  lemma NeverAboveTheEntry(entry: real, low: real, range: real, c: Config)
    requires ValidConfig(c) && entry > 0.0 && OnTick(entry)
    ensures Rounded(Unrounded(entry, low, range, c)) <= entry <==> StructuralLow(low) <= entry
  {
    var n: int :| entry == Ticks(n);
    FloorBelowCap(entry, c);
    AtLeastOneTick(n);
    var u := Unrounded(entry, low, range, c);
    CeilIsLeast(u, n);
    TicksAreOrdered(CeilTicks(u), n);
    hide CeilTicks, Ticks, CapDistance, FloorDistance;
  }

  // It is strictly under the entry exactly when the entry is over one tick and the distance
  // before rounding is at least one.
  lemma StrictlyBelowTheEntry(entry: real, low: real, range: real, c: Config)
    requires ValidConfig(c) && entry > 0.0 && OnTick(entry)
    ensures Rounded(Unrounded(entry, low, range, c)) < entry
       <==> TICK < entry && entry - Unrounded(entry, low, range, c) >= TICK
  {
    var n: int :| entry == Ticks(n);
    var u := Unrounded(entry, low, range, c);
    hide Unrounded;
    assert Ticks(n - 1) == entry - TICK;
    CeilIsLeast(u, n - 1);
    TicksAreOrdered(n, CeilTicks(u));
    hide CeilTicks, Ticks;
  }

  lemma AtLeastOneTick(n: int)
    requires Ticks(n) > 0.0
    ensures Ticks(n) >= TICK
  {
    assert n >= 1 && n as real >= 1.0;
  }

  lemma TicksAreOrdered(m: int, n: int)
    ensures Ticks(m) <= Ticks(n) <==> m <= n
  {
    if m <= n { assert m as real <= n as real; } else { assert n + 1 <= m && (n + 1) as real <= m as real; }
  }

  // A stop at the range fraction is flagged as inside the observed range only if that
  // fraction is wider than the entry itself, never through rounding.
  lemma RoundingIsNotFlagged(entry: real, low: real, range: real, c: Config)
    requires ValidConfig(c) && entry > 0.0
    requires FloorDistance(entry, c) < RangeDistance(range, c) < CapDistance(entry, c)
    requires StructuralLow(low) <= entry - RangeDistance(range, c)
    ensures RangeDistance(range, c) - (entry - Rounded(Unrounded(entry, low, range, c))) > TICK
       <==> RangeDistance(range, c) > entry
  {
    FloorBelowCap(entry, c);
    var u := Unrounded(entry, low, range, c);
    assert u == entry - RangeDistance(range, c) by { hide FloorDistance, CapDistance; }
    hide Unrounded, FloorDistance, CapDistance;
    var n := CeilTicks(u);
    assert Ticks(n) - u < TICK;
    if u < 0.0 { assert n <= 0 && n as real <= 0.0; }
  }

  // ---------- Reward to risk ----------

  function FirstTarget(high: real, range: real): real { high + range * 1.618 }

  function RewardRisk(entry: real, stop: real, target: real): Option<real>
  {
    var risk, reward := entry - stop, target - entry;
    if risk > 0.0 then Some(reward / risk) else None
  }

  // The ratio of a pinned plan before rounding.
  function PinnedRatio(high: real, range: real, distance: real): real
    requires distance > 0.0
  {
    (FirstTarget(high, range) - high * 1.005) / distance
  }

  lemma Below(a: real, b: real, k: real)
    requires b > 0.0
    ensures a / b < k <==> a < k * b
    ensures a / b > k <==> a > k * b
  {
    Ratio(a, b, k);
  }

  // Both legs come from the same range, so the constants of the policy pin the ratio: with
  // range fraction f, floor p and cap q of the entry, it lies strictly between
  // 1.618/f - 0.005/(1.005 p) and 1.618/f - 0.005/(1.005 q).
  lemma RatioIsPinned(high: real, range: real, f: real, p: real, q: real)
    requires high > 0.0 && range > 0.0 && f > 0.0 && 0.0 < p < q
    requires p * (high * 1.005) < range * f < q * (high * 1.005)
    ensures 1.618 / f - 0.005 / (1.005 * p) < PinnedRatio(high, range, range * f) < 1.618 / f - 0.005 / (1.005 * q)
  {
    var d := range * f;
    Legs(high, range, f, p, d);
    Legs(high, range, f, q, d);
    Below(FirstTarget(high, range) - high * 1.005, d, 1.618 / f - 0.005 / (1.005 * p));
    Below(FirstTarget(high, range) - high * 1.005, d, 1.618 / f - 0.005 / (1.005 * q));
  }

  lemma Legs(high: real, range: real, f: real, p: real, d: real)
    requires f > 0.0 && p > 0.0 && d == range * f && d > 0.0
    ensures p * (high * 1.005) < d <==>
      (1.618 / f - 0.005 / (1.005 * p)) * d < FirstTarget(high, range) - high * 1.005
    ensures p * (high * 1.005) > d <==>
      (1.618 / f - 0.005 / (1.005 * p)) * d > FirstTarget(high, range) - high * 1.005
  {
    var a, b := 1.618 / f, 0.005 / (1.005 * p);
    Reward(f, range, d, a);
    Share(p, b, d, high);
    assert (a - b) * d == a * d - b * d;
  }

  lemma Reward(f: real, range: real, d: real, a: real)
    requires f > 0.0 && d == range * f && a == 1.618 / f
    ensures a * d == 1.618 * range
  {
    assert a * f == 1.618;
    assert a * (range * f) == (a * f) * range;
  }

  lemma Share(p: real, b: real, d: real, high: real)
    requires p > 0.0 && b == 0.005 / (1.005 * p)
    ensures p * (high * 1.005) < d <==> b * d > 0.005 * high
    ensures p * (high * 1.005) > d <==> b * d < 0.005 * high
  {
    assert b * (1.005 * p) == 0.005;
    assert b > 0.0;
    var gap := d - p * (high * 1.005);
    assert b * gap == b * d - 0.005 * high by {
      assert b * (p * (high * 1.005)) == (b * (1.005 * p)) * high;
    }
    Sign(b, gap);
  }

  lemma Sign(b: real, gap: real)
    requires b > 0.0
    ensures gap > 0.0 <==> b * gap > 0.0
    ensures gap < 0.0 <==> b * gap < 0.0
  {
    Quotient(b, gap);
  }

  // With the default policy the pinned ratio is 3.07 to 3.195, whatever the row.
  lemma DefaultRatioIsPinned(high: real, range: real)
    requires high > 0.0 && range > 0.0 && 0.03 * (high * 1.005) < range * 0.5 < 0.12 * (high * 1.005)
    ensures 3.070 < PinnedRatio(high, range, range * 0.5) < 3.195
  {
    RatioIsPinned(high, range, 0.5, 0.03, 0.12);
  }

  // The default policy with its rounding, the entry to the nearest tick and the stop up: the
  // plan leaves two and a half times the risk exactly when its distance is at least a tick, so
  // a floor of 1.5 never rejects one of those. Under a tick there is no risk left to divide by.
  lemma DefaultPlanClearsTheFloor(high: real, low: real, entry: real)
    requires 0.0 <= low <= high && OnTick(entry) && entry > 0.0 && -0.00005 <= entry - high * 1.005 <= 0.00005
    requires var c, range := Config(0.5, 3.0, 12.0), high - low;
             && FloorDistance(entry, c) < RangeDistance(range, c) < CapDistance(entry, c)
             && StructuralLow(low) <= entry - RangeDistance(range, c)
    ensures var c, range := Config(0.5, 3.0, 12.0), high - low;
            var ratio := RewardRisk(entry, Rounded(Unrounded(entry, low, range, c)), FirstTarget(high, range));
            && (ratio.Some? && ratio.value > 2.5 <==> RangeDistance(range, c) >= TICK)
            && (ratio.None? <==> RangeDistance(range, c) < TICK)
  {
    var c, range := Config(0.5, 3.0, 12.0), high - low;
    var u := Unrounded(entry, low, range, c);
    assert u == entry - range * 0.5;
    StrictlyBelowTheEntry(entry, low, range, c);
    CeilIsLeast(u, 0);
    var stop := Rounded(u);
    assert u <= stop;
    hide Rounded, Unrounded;
    if stop < entry { Below(FirstTarget(high, range) - entry, entry - stop, 2.5); }
  }

  // Such a plan: no risk and no ratio.
  lemma TinyPlanHasNoRatio()
    ensures var c, high, low, entry := Config(0.5, 3.0, 12.0), 0.0000995, 0.0000895, 0.0001;
            && -0.00005 <= entry - high * 1.005 <= 0.00005
            && FloorDistance(entry, c) < RangeDistance(high - low, c) < CapDistance(entry, c)
            && StructuralLow(low) <= entry - RangeDistance(high - low, c)
            && RewardRisk(entry, Rounded(Unrounded(entry, low, high - low, c)), FirstTarget(high, high - low)) == None
  {
    CeilIsLeast(0.000095, 1);
    assert Ticks(1) == 0.0001 && Ticks(CeilTicks(0.000095)) <= 0.0001 by { TicksAreOrdered(CeilTicks(0.000095), 1); }
  }
}
