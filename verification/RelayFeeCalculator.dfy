/** The kinked capital fee and the minimum deposit rule (src/relayFeeCalculator/relayFeeCalculator.ts). */
module RelayFeeCalculator {
  import opened Numbers
  import opened FixedPoint

  datatype CapitalCostConfig = CapitalCostConfig(lowerBound: int, upperBound: int, cutoff: int, decimals: int)

  /** `validateCapitalCostsConfig`. */
  predicate ValidateCapitalCostsConfig(c: CapitalCostConfig) {
    && c.upperBound < ONE / 100
    && c.lowerBound <= c.upperBound
    && 0 < c.decimals <= 18
  }

  function Pow10(n: nat): (r: int)
    ensures r >= 1
  {
    if n == 0 then 1 else 10 * Pow10(n - 1)
  }

  /** The amount scaled to 18 decimals. */
  function Scaled(c: CapitalCostConfig, amount: int): int
    requires ValidateCapitalCostsConfig(c)
  {
    amount * Pow10(18 - c.decimals)
  }

  function MinCharge(c: CapitalCostConfig, y: int): int {
    Div(c.lowerBound * y, ONE)
  }

  function TriangleSlope(c: CapitalCostConfig): int {
    if c.cutoff == 0 then 0 else Div((c.upperBound - c.lowerBound) * ONE, c.cutoff)
  }

  function TriangleHeight(c: CapitalCostConfig, y: int): int {
    Div(TriangleSlope(c) * Min(c.cutoff, y), ONE)
  }

  function TriangleCharge(c: CapitalCostConfig, y: int): int {
    Div(TriangleHeight(c, y) * Min(c.cutoff, y), 2 * ONE)
  }

  function RemainderCharge(c: CapitalCostConfig, y: int): int {
    Div(Max(0, y - c.cutoff) * (c.upperBound - c.lowerBound), ONE)
  }

  /** What is charged beyond the lower bound. */
  function RiseCharge(c: CapitalCostConfig, y: int): int {
    TriangleCharge(c, y) + RemainderCharge(c, y)
  }

  function Charge(c: CapitalCostConfig, y: int): int {
    MinCharge(c, y) + RiseCharge(c, y)
  }

  /** `capitalFeePercent` for the config of the route. */
  function CapitalFeePercent(c: CapitalCostConfig, amount: int): int
    requires ValidateCapitalCostsConfig(c)
  {
    if Scaled(c, amount) == 0 then MAX_BIG_INT
    else Div(Charge(c, Scaled(c, amount)) * ONE, Scaled(c, amount))
  }

  lemma ScaledIsZeroOnlyForZero(c: CapitalCostConfig, amount: int)
    requires ValidateCapitalCostsConfig(c)
    ensures Scaled(c, amount) == 0 <==> amount == 0
    ensures amount > 0 ==> Scaled(c, amount) >= amount
  {
    if amount > 0 {
      MulMonotone(amount, amount, 1, Pow10(18 - c.decimals));
    } else if amount < 0 {
      MulMonotone(1, -amount, 1, Pow10(18 - c.decimals));
      assert -amount * Pow10(18 - c.decimals) == -(amount * Pow10(18 - c.decimals));
    }
  }

  // ---------- the curve it approximates ----------

  // Charges are compared at 1e18 their size. `s` is the part of the amount below the cutoff, `d` the rise in fee.

  function Times(a: real, b: real): real { a * b }

  function ExactRise(c: CapitalCostConfig, y: int): real {
    var d, s := c.upperBound - c.lowerBound, Min(c.cutoff, y);
    (if c.cutoff == 0 then 0.0 else Times(Ratio(d, c.cutoff), Times(s as real, s as real)) / 2.0)
    + Times((y - s) as real, d as real)
  }

  /** 1e18 times the area under a fee that rises in a line from the lower bound to the upper bound at the cutoff. */
  function ExactCharge(c: CapitalCostConfig, y: int): real {
    Times(c.lowerBound as real, y as real) + ExactRise(c, y)
  }

  /** The fee per unit of a charge. */
  function ExactFee(c: CapitalCostConfig, y: int): real
    requires y != 0
  {
    ExactCharge(c, y) / y as real
  }

  lemma ScaledDiv(a: int, d: int)
    requires a >= 0 && d > 0
    ensures 0.0 <= a as real - (Div(a, d) * d) as real < d as real
  {
    DivFloors(a, d);
  }

  lemma ProductReal(a: int, b: int)
    ensures (a * b) as real == Times(a as real, b as real)
  {
  }

  /** Rounding down the slope costs less than 1, so the height loses less than 1 + s/1e18. */
  lemma HeightError(c: CapitalCostConfig, y: int)
    requires c.lowerBound <= c.upperBound && c.cutoff > 0 && y > 0
    ensures var (d, s, h) := (c.upperBound - c.lowerBound, Min(c.cutoff, y), TriangleHeight(c, y));
            && 0 <= h <= d
            && 0.0 <= Times(Ratio(d, c.cutoff), s as real) - h as real < 1.0 + Ratio(s, ONE)
  {
    var d, s, slope := c.upperBound - c.lowerBound, Min(c.cutoff, y), TriangleSlope(c);
    SlopeError(d, c.cutoff);
    HeightBelowRise(slope, s, c.cutoff, d);
    DivFloors(slope * s, ONE);
    ProductReal(slope, s);
    SlopeTimes(slope as real, Ratio(d, c.cutoff), s as real, Ratio(slope * s, ONE));
    hide Times, Ratio, TriangleSlope;
  }

  lemma SlopeError(d: int, cutoff: int)
    requires d >= 0 && cutoff > 0
    ensures var slope := Div(d * ONE, cutoff);
            && slope >= 0 && slope * cutoff <= d * ONE
            && slope as real <= Ratio(d, cutoff) * ONE as real < slope as real + 1.0
  {
    DivFloors(d * ONE, cutoff);
    assert Ratio(d * ONE, cutoff) == Ratio(d, cutoff) * ONE as real;
  }

  lemma HeightBelowRise(slope: int, s: int, cutoff: int, d: int)
    requires slope >= 0 && 0 <= s <= cutoff && slope * cutoff <= d * ONE
    ensures slope * s >= 0
    ensures 0 <= Div(slope * s, ONE) <= d
  {
    MulMonotone(0, slope, 0, s);
    MulMonotone(slope, slope, s, cutoff);
    DivFloors(slope * s, ONE);
  }

  lemma SlopeTimes(slope: real, k: real, s: real, q: real)
    requires s >= 0.0 && slope <= k * ONE as real < slope + 1.0
    requires q * ONE as real == Times(slope, s)
    ensures q <= Times(k, s) <= q + s / ONE as real
  {
    NonNegative(k * ONE as real - slope, s);
    NonNegative(slope + 1.0 - k * ONE as real, s);
    assert (k * ONE as real - slope) * s == k * s * ONE as real - slope * s;
    assert (slope + 1.0 - k * ONE as real) * s == slope * s + s - k * s * ONE as real;
  }

  lemma TriangleError(c: CapitalCostConfig, y: int)
    requires c.lowerBound <= c.upperBound && c.cutoff > 0 && y > 0
    ensures var (d, s) := (c.upperBound - c.lowerBound, Min(c.cutoff, y));
            && TriangleCharge(c, y) >= 0
            && 0.0 <= Times(Ratio(d, c.cutoff), Times(s as real, s as real)) / 2.0 - (TriangleCharge(c, y) * ONE) as real
                   < ONE as real + s as real / 2.0 + Times(s as real, Ratio(s, ONE)) / 2.0
  {
    var d, s, h := c.upperBound - c.lowerBound, Min(c.cutoff, y), TriangleHeight(c, y);
    HeightError(c, y);
    MulMonotone(0, h, 0, s);
    ScaledDiv(h * s, 2 * ONE);
    DivFloors(h * s, 2 * ONE);
    ProductReal(h, s);
    HeightTimesWidth(h as real, Ratio(d, c.cutoff), s as real, Ratio(s, ONE));
    hide Times, TriangleHeight;
  }

  lemma HeightTimesWidth(h: real, k: real, s: real, r: real)
    requires s >= 0.0 && 0.0 <= Times(k, s) - h < 1.0 + r
    ensures Times(h, s) <= Times(k, Times(s, s)) <= Times(h, s) + s + Times(s, r)
  {
    NonNegative(k * s - h, s);
    NonNegative(1.0 + r + h - k * s, s);
    assert (k * s - h) * s == k * (s * s) - h * s;
    assert (1.0 + r + h - k * s) * s == s + s * r + h * s - k * (s * s);
  }

  /** The rise charged is never above the area under the curve. Below it, only by what three roundings lose. */
  lemma RiseError(c: CapitalCostConfig, y: int)
    requires c.lowerBound <= c.upperBound && c.cutoff >= 0 && y > 0
    ensures RiseCharge(c, y) >= 0
    ensures var s := Min(c.cutoff, y);
            0.0 <= ExactRise(c, y) - (RiseCharge(c, y) * ONE) as real
                < 2.0 * ONE as real + s as real / 2.0 + Times(s as real, Ratio(s, ONE)) / 2.0
  {
    var d, s := c.upperBound - c.lowerBound, Min(c.cutoff, y);
    assert Max(0, y - c.cutoff) == y - s;
    MulMonotone(0, y - s, 0, d);
    ScaledDiv((y - s) * d, ONE);
    DivFloors((y - s) * d, ONE);
    ProductReal(y - s, d);
    if c.cutoff > 0 {
      TriangleError(c, y);
    } else {
      assert Times(0.0, Ratio(0, ONE)) == 0.0;
      assert TriangleSlope(c) * 0 == 0 && TriangleHeight(c, y) * 0 == 0;
      assert TriangleCharge(c, y) == 0;
    }
    hide Times, TriangleCharge, Ratio;
  }

  /** The minimum charge is rounded toward zero: down for a lower bound that is not negative, up for one that is. */
  lemma MinimumError(c: CapitalCostConfig, y: int)
    requires y > 0
    ensures c.lowerBound >= 0 ==> c.lowerBound * y - ONE < MinCharge(c, y) * ONE <= c.lowerBound * y
    ensures c.lowerBound < 0 ==> c.lowerBound * y <= MinCharge(c, y) * ONE < c.lowerBound * y + ONE
  {
    if c.lowerBound >= 0 {
      MulMonotone(0, c.lowerBound, 0, y);
      DivFloors(c.lowerBound * y, ONE);
    } else {
      MulMonotone(1, -c.lowerBound, 1, y);
      assert -c.lowerBound * y == -(c.lowerBound * y);
      DivFloors(-c.lowerBound * y, ONE);
    }
  }

  /** The rise under the curve is at most that of the whole amount. */
  lemma ExactBelowUpper(c: CapitalCostConfig, y: int)
    requires c.lowerBound <= c.upperBound && c.cutoff >= 0 && y > 0
    ensures ExactRise(c, y) <= Times((c.upperBound - c.lowerBound) as real, y as real)
  {
    var d, s := (c.upperBound - c.lowerBound) as real, Min(c.cutoff, y) as real;
    NonNegative(d, s);
    assert Times(d, y as real) == Times(y as real - s, d) + d * s;
    if c.cutoff > 0 {
      var k := Ratio(c.upperBound - c.lowerBound, c.cutoff);
      assert k * c.cutoff as real == d;
      SlopeWithinRise(k, s, c.cutoff as real, d);
    }
  }

  lemma SlopeWithinRise(k: real, s: real, cutoff: real, d: real)
    requires 0.0 <= s <= cutoff && k >= 0.0 && k * cutoff == d
    ensures Times(k, Times(s, s)) <= d * s
  {
    NonNegative(cutoff - s, k);
    assert (cutoff - s) * k == d - k * s;
    NonNegative(d - k * s, s);
    assert (d - k * s) * s == d * s - k * (s * s);
  }

  // ---------- the fee ----------

  /** Truncation moves a quotient by less than one, toward zero. */
  lemma DivNear(a: int, y: int)
    requires y > 0
    ensures a >= 0 ==> 0 <= Div(a, y) * y <= a < Div(a, y) * y + y
    ensures a < 0 ==> Div(a, y) * y - y < a <= Div(a, y) * y <= 0
    ensures a >= 0 ==> Div(a, y) >= 0
  {
    if a >= 0 {
      DivFloors(a, y);
      MulMonotone(0, Div(a, y), 0, y);
    } else {
      DivFloors(-a, y);
      MulMonotone(0, Div(-a, y), 0, y);
      assert Div(a, y) == -Div(-a, y);
      assert Div(a, y) * y == -(Div(-a, y) * y);
    }
  }

  /**
   The fee approximates the exact one: from below, unless a negative lower bound is rounded up, and by less than
   3e18/y + s/2e18 + 3/2, `s` being the part of the scaled amount `y` below the cutoff.
   */
  lemma FeeFollowsCurve(c: CapitalCostConfig, amount: int)
    requires ValidateCapitalCostsConfig(c) && c.cutoff >= 0 && amount > 0
    ensures Scaled(c, amount) > 0
    ensures var (y, fee) := (Scaled(c, amount), CapitalFeePercent(c, amount));
            && (if c.lowerBound >= 0 then 0.0 <= ExactFee(c, y) - fee as real
                else -Ratio(ONE, y) - 1.0 < ExactFee(c, y) - fee as real)
            && ExactFee(c, y) - fee as real < Ratio(3 * ONE, y) + Ratio(Min(c.cutoff, y), 2 * ONE) + 1.5
  {
    ScaledIsZeroOnlyForZero(c, amount);
    var y := Scaled(c, amount);
    var s, charge := Min(c.cutoff, y), Charge(c, y) * ONE;
    ChargeError(c, y);
    ChargeWithin(c, y);
    DivNear(charge, y);
    var fee, exact := Div(charge, y), ExactCharge(c, y);
    assert CapitalFeePercent(c, amount) == fee && ExactFee(c, y) == exact / y as real;
    assert Ratio(s, ONE) == s as real / ONE as real && Ratio(ONE, y) == ONE as real / y as real;
    assert Ratio(3 * ONE, y) == 3.0 * ONE as real / y as real;
    assert Ratio(s, 2 * ONE) == s as real / (2.0 * ONE as real);
    ProductReal(fee, y);
    hide CapitalFeePercent, ExactFee, ExactCharge, Charge, Ratio, Scaled, Times;
    FeeAbove(exact, charge as real, fee as real, s as real, y as real);
    FeeBelow(exact, charge as real, fee as real, y as real, c.lowerBound < 0);
  }

  lemma ChargeError(c: CapitalCostConfig, y: int)
    requires c.lowerBound <= c.upperBound && c.cutoff >= 0 && y > 0
    ensures var (s, loss) := (Min(c.cutoff, y), ExactCharge(c, y) - (Charge(c, y) * ONE) as real);
            && (if c.lowerBound >= 0 then 0.0 <= loss else -(ONE as real) < loss)
            && loss < 3.0 * ONE as real + s as real / 2.0 + Times(s as real, Ratio(s, ONE)) / 2.0
  {
    RiseError(c, y);
    MinimumError(c, y);
    ProductReal(c.lowerBound, y);
    var m, r, exact := MinCharge(c, y) * ONE, RiseCharge(c, y) * ONE, c.lowerBound * y;
    assert Charge(c, y) * ONE == m + r;
    hide ExactRise, RiseCharge, MinCharge, Charge, Times, Ratio;
    assert ExactCharge(c, y) == exact as real + ExactRise(c, y);
  }

  lemma FeeAbove(exact: real, charge: real, fee: real, s: real, y: real)
    requires y > 0.0 && 0.0 <= s <= y
    requires exact - charge < 3.0 * ONE as real + s / 2.0 + Times(s, s / ONE as real) / 2.0
    requires charge - y < Times(fee, y)
    ensures exact / y - fee < 3.0 * ONE as real / y + s / (2.0 * ONE as real) + 1.5
  {
    var one := ONE as real;
    assert Times(exact / y - fee, y) == exact - Times(fee, y);
    NonNegative(y - s, 1.0 + s / one);
    assert (y - s) * (1.0 + s / one) == y + y * (s / one) - s - Times(s, s / one);
    var bound := 3.0 * one / y + s / (2.0 * one) + 1.5;
    assert Times(bound, y) == 3.0 * one + y * (s / one) / 2.0 + 1.5 * y;
    CancelTimes(exact / y - fee, bound, y);
    hide Times;
  }

  lemma FeeBelow(exact: real, charge: real, fee: real, y: real, negative: bool)
    requires y > 0.0
    requires if negative then -(ONE as real) < exact - charge && Times(fee, y) < charge + y
             else 0.0 <= exact - charge && Times(fee, y) <= charge
    ensures if negative then -(ONE as real / y) - 1.0 < exact / y - fee else 0.0 <= exact / y - fee
  {
    var one := ONE as real;
    assert Times(exact / y - fee, y) == exact - Times(fee, y);
    assert Times(-(one / y) - 1.0, y) == -one - y && Times(0.0, y) == 0.0;
    CancelTimes(-(one / y) - 1.0, exact / y - fee, y);
    CancelTimes(0.0, exact / y - fee, y);
    hide Times;
  }

  lemma CancelTimes(x: real, y: real, d: real)
    requires d > 0.0
    ensures Times(x, d) <= Times(y, d) <==> x <= y
    ensures Times(x, d) < Times(y, d) <==> x < y
  {
    Cancel(x, y, d);
  }

  // ---------- the bounds ----------

  /** What a negative cutoff adds to the area: the rise over an amount as large as the cutoff. */
  function Excess(c: CapitalCostConfig): int {
    if c.cutoff >= 0 then 0 else (c.upperBound - c.lowerBound) * -c.cutoff
  }

  lemma ExcessIsPositive(c: CapitalCostConfig)
    requires c.lowerBound <= c.upperBound
    ensures Excess(c) >= 0
  {
    if c.cutoff < 0 {
      MulMonotone(0, c.upperBound - c.lowerBound, 0, -c.cutoff);
    }
  }

  lemma NegativeHeight(c: CapitalCostConfig, y: int)
    requires c.cutoff < 0 < y && c.upperBound >= c.lowerBound
    ensures 0 <= TriangleHeight(c, y) <= c.upperBound - c.lowerBound
  {
    var d, k := c.upperBound - c.lowerBound, -c.cutoff;
    DivFloors(d * ONE, k);
    var q := Div(d * ONE, k);
    MulMonotone(0, q, 0, k);
    assert -q * -k == q * k;
    DivFloors(q * k, ONE);
    CancelInt(TriangleHeight(c, y), d, ONE);
  }

  /** Under a negative cutoff the triangle is a rebate, of at most half the excess. */
  lemma NegativeTriangle(c: CapitalCostConfig, y: int)
    requires c.cutoff < 0 < y && c.upperBound >= c.lowerBound
    ensures -Div(Excess(c), 2 * ONE) <= TriangleCharge(c, y) <= 0
  {
    var d, k, h := c.upperBound - c.lowerBound, -c.cutoff, TriangleHeight(c, y);
    NegativeHeight(c, y);
    hide TriangleHeight;
    MulMonotone(0, h, 0, k);
    MulMonotone(h, d, k, k);
    assert h * -k == -(h * k);
    DivFloors(h * k, 2 * ONE);
    DivMonotone(h * k, d * k, 2 * ONE);
    assert TriangleCharge(c, y) == -Div(h * k, 2 * ONE);
  }

  lemma NegativeRemainder(c: CapitalCostConfig, y: int)
    requires c.cutoff < 0 < y && c.lowerBound <= c.upperBound
    ensures RemainderCharge(c, y) == Div((c.upperBound - c.lowerBound) * y + Excess(c), ONE)
  {
    var d, k := c.upperBound - c.lowerBound, -c.cutoff;
    assert (y + k) * d == d * y + d * k;
  }

  /** The rise is never negative, and never more than that of the whole amount and the excess. */
  lemma RiseWithin(c: CapitalCostConfig, y: int)
    requires c.lowerBound <= c.upperBound && y > 0
    ensures 0 <= RiseCharge(c, y) * ONE <= c.upperBound * y - c.lowerBound * y + Excess(c)
  {
    var d := c.upperBound - c.lowerBound;
    assert d * y == c.upperBound * y - c.lowerBound * y;
    if c.cutoff >= 0 {
      RiseError(c, y);
      ExactBelowUpper(c, y);
      ProductReal(d, y);
      hide ExactRise, RiseCharge;
    } else {
      ExcessIsPositive(c);
      NegativeTriangle(c, y);
      NegativeRemainder(c, y);
      MulMonotone(0, d, 0, y);
      RebateWithin(d * y, Excess(c), TriangleCharge(c, y));
    }
  }

  /** Half the excess at most is taken off a charge that includes all of it. */
  lemma RebateWithin(exact: int, excess: int, triangle: int)
    requires exact >= 0 && excess >= 0 && -Div(excess, 2 * ONE) <= triangle <= 0
    ensures 0 <= (triangle + Div(exact + excess, ONE)) * ONE <= exact + excess
    ensures exact % ONE == 0 && excess >= ONE ==> triangle + Div(exact + excess, ONE) > Div(exact, ONE)
  {
    DivFloors(exact + excess, ONE);
    DivFloors(excess, 2 * ONE);
  }

  /** Between the bounds, up to one rounding of the minimum charge, and the excess of a negative cutoff. */
  lemma ChargeWithin(c: CapitalCostConfig, y: int)
    requires c.lowerBound <= c.upperBound && y > 0
    ensures c.lowerBound >= 0 ==> c.lowerBound * y - ONE < Charge(c, y) * ONE <= c.upperBound * y + Excess(c)
    ensures c.lowerBound < 0 ==> c.lowerBound * y <= Charge(c, y) * ONE < c.upperBound * y + Excess(c) + ONE
    ensures c.lowerBound >= 0 ==> Charge(c, y) >= 0
  {
    RiseWithin(c, y);
    MinimumError(c, y);
    assert Charge(c, y) == MinCharge(c, y) + RiseCharge(c, y);
    hide Charge, MinCharge, RiseCharge, Excess;
    if c.lowerBound >= 0 {
      MulMonotone(0, c.lowerBound, 0, y);
    }
    SumWithin(MinCharge(c, y), RiseCharge(c, y), c.lowerBound * y, c.upperBound * y, Excess(c), c.lowerBound >= 0);
  }

  lemma SumWithin(minimum: int, rise: int, lower: int, upper: int, excess: int, positive: bool)
    requires if positive then lower - ONE < minimum * ONE <= lower && lower >= 0
             else lower <= minimum * ONE < lower + ONE
    requires 0 <= rise * ONE <= upper - lower + excess
    ensures var charge := minimum + rise;
            if positive then lower - ONE < charge * ONE <= upper + excess && charge >= 0
            else lower <= charge * ONE < upper + excess + ONE
  {
  }

  /**
   For every validated config and positive amount, the fee stays above the lower bound less 1e18/y + 1, and below the
   upper bound but for the excess of a negative cutoff and the rounding of a negative lower bound. Amounts that outweigh
   these two respect the upper bound, unless it is negative itself.
   */
  lemma FeeWithinBounds(c: CapitalCostConfig, amount: int)
    requires ValidateCapitalCostsConfig(c) && amount > 0
    ensures Scaled(c, amount) > 0
    ensures var (y, fee) := (Scaled(c, amount), CapitalFeePercent(c, amount));
            && c.lowerBound as real - Ratio(ONE, y) - 1.0 < fee as real
            && (c.lowerBound < 0 ==> c.lowerBound <= fee)
            && (fee - c.upperBound) * y <= Excess(c) + (if c.lowerBound >= 0 then 0 else ONE + y)
            && (c.upperBound >= 0 && Excess(c) + (if c.lowerBound >= 0 then 1 else ONE) <= y ==> fee <= c.upperBound)
  {
    ScaledIsZeroOnlyForZero(c, amount);
    var y := Scaled(c, amount);
    ChargeWithin(c, y);
    ExcessIsPositive(c);
    DivNear(Charge(c, y) * ONE, y);
    hide Charge, Excess, Scaled;
    Quotient(Charge(c, y) * ONE, y, Div(Charge(c, y) * ONE, y), c.lowerBound, c.upperBound, Excess(c));
  }

  lemma Quotient(charge: int, y: int, fee: int, lower: int, upper: int, excess: int)
    requires y > 0 && lower <= upper && excess >= 0
    requires charge >= 0 ==> 0 <= fee && fee * y <= charge < fee * y + y
    requires charge < 0 ==> fee * y - y < charge <= fee * y
    requires lower >= 0 ==> lower * y - ONE < charge <= upper * y + excess && charge >= 0
    requires lower < 0 ==> lower * y <= charge < upper * y + excess + ONE
    ensures lower as real - Ratio(ONE, y) - 1.0 < fee as real
    ensures lower < 0 ==> lower <= fee
    ensures (fee - upper) * y <= excess + (if lower >= 0 then 0 else ONE + y)
    ensures upper >= 0 && excess + (if lower >= 0 then 1 else ONE) <= y ==> fee <= upper
  {
    assert (fee - upper) * y == fee * y - upper * y;
    if lower < 0 && charge < 0 {
      CancelInt(lower, fee, y);
    }
    if upper >= 0 && excess + (if lower >= 0 then 1 else ONE) <= y {
      assert (upper + 1) * y == upper * y + y;
      if charge >= 0 {
        CancelInt(fee, upper + 1, y);
      } else {
        CancelInt(fee, 1, y);
      }
    }
    LowerBoundReal(lower, fee, y);
  }

  lemma LowerBoundReal(lower: int, fee: int, y: int)
    requires y > 0 && fee * y + y > lower * y - ONE
    ensures lower as real - Ratio(ONE, y) - 1.0 < fee as real
  {
    var x := lower as real - Ratio(ONE, y) - 1.0;
    assert (lower * y) as real == lower as real * y as real && (fee * y) as real == fee as real * y as real;
    assert Ratio(ONE, y) * y as real == ONE as real;
    assert x * y as real == lower as real * y as real - ONE as real - y as real;
    Cancel(x, fee as real, y as real);
  }

  /** One whole token, scaled to 18 decimals. */
  lemma WholeToken(c: CapitalCostConfig, amount: int)
    requires ValidateCapitalCostsConfig(c)
    ensures Scaled(c, Pow10(c.decimals)) == ONE
    ensures amount >= Pow10(c.decimals) ==> Scaled(c, amount) >= ONE
  {
    PowersMultiply(c.decimals, 18 - c.decimals);
    TenToThe18();
    hide Pow10;
    if amount >= Pow10(c.decimals) {
      MulMonotone(Pow10(c.decimals), amount, Pow10(18 - c.decimals), Pow10(18 - c.decimals));
    }
  }

  lemma {:induction false} PowersMultiply(m: nat, n: nat)
    ensures Pow10(m) * Pow10(n) == Pow10(m + n)
  {
    if m > 0 {
      PowersMultiply(m - 1, n);
      assert Pow10(m) * Pow10(n) == 10 * (Pow10(m - 1) * Pow10(n));
    } else {
      assert Pow10(0) == 1;
    }
  }

  lemma TenToThe18()
    ensures Pow10(18) == ONE
  {
    assert Pow10(6) == 1_000_000;
    PowersMultiply(6, 6);
    PowersMultiply(12, 6);
  }

  lemma DivOfWhole(x: int)
    ensures Div(x * ONE, ONE) == x
  {
    if x >= 0 {
      DivExact(x, ONE);
    } else {
      DivExact(-x, ONE);
    }
  }

  /** With an excess of 1e18 or more, one whole token is charged more than the upper bound, whatever the sign of either. */
  lemma WholeTokenOvercharged(c: CapitalCostConfig)
    requires ValidateCapitalCostsConfig(c) && Excess(c) >= ONE
    ensures CapitalFeePercent(c, Pow10(c.decimals)) > c.upperBound
  {
    var d := c.upperBound - c.lowerBound;
    WholeToken(c, 0);
    NegativeTriangle(c, ONE);
    NegativeRemainder(c, ONE);
    RebateWithin(d * ONE, Excess(c), TriangleCharge(c, ONE));
    DivExact(d, ONE);
    DivOfWhole(c.lowerBound);
    assert MinCharge(c, ONE) == c.lowerBound;
    DivOfWhole(Charge(c, ONE));
    hide MinCharge, TriangleCharge, RemainderCharge, Scaled, Pow10;
  }

  /**
   Every amount of at least one whole token respects the upper bound if and only if the rise times the negative part of
   the cutoff is below 1e18. Where that product is smaller, a negative lower bound is rounded up, which does no harm as
   long as neither the upper bound nor the cutoff is negative too.
   */
  lemma WholeTokensWithinBoundIff(c: CapitalCostConfig)
    requires ValidateCapitalCostsConfig(c)
    requires c.lowerBound >= 0 || Excess(c) >= ONE || (c.upperBound >= 0 && c.cutoff >= 0)
    ensures (forall amount :: amount >= Pow10(c.decimals) ==> CapitalFeePercent(c, amount) <= c.upperBound)
            <==> Excess(c) < ONE
  {
    if Excess(c) < ONE {
      forall amount | amount >= Pow10(c.decimals) ensures CapitalFeePercent(c, amount) <= c.upperBound {
        WholeToken(c, amount);
        FeeWithinBounds(c, amount);
      }
    } else {
      WholeTokenOvercharged(c);
    }
  }

  /** Validation lets a negative cutoff through: for one such config the fee of a whole token is three times the upper bound. */
  lemma NegativeCutoffTriples()
    ensures var c := CapitalCostConfig(0, 1_000_000_000_000_000, -4 * ONE, 18);
            && ValidateCapitalCostsConfig(c)
            && CapitalFeePercent(c, ONE) == 3 * c.upperBound
  {
    var c := CapitalCostConfig(0, 1_000_000_000_000_000, -4 * ONE, 18);
    assert Pow10(0) == 1 && Scaled(c, ONE) == ONE;
    assert TriangleSlope(c) == -250_000_000_000_000;
    assert TriangleHeight(c, ONE) == 1_000_000_000_000_000;
    assert TriangleCharge(c, ONE) == -2_000_000_000_000_000;
    assert RemainderCharge(c, ONE) == 5_000_000_000_000_000;
  }

  /** And a negative lower bound, which is rounded up: this config charges 0 where both bounds are -1. */
  lemma NegativeLowerBoundRoundsUp()
    ensures var c := CapitalCostConfig(-1, -1, 0, 18);
            ValidateCapitalCostsConfig(c) && CapitalFeePercent(c, 1) == 0 > c.upperBound
  {
    var c := CapitalCostConfig(-1, -1, 0, 18);
    assert Pow10(0) == 1 && Scaled(c, 1) == 1;
    assert MinCharge(c, 1) == 0 && TriangleCharge(c, 1) == 0 && RemainderCharge(c, 1) == 0;
  }

  // ---------- relayer fee details ----------

  function GasFeePercent(gasFeesInToken: int, amount: int): int {
    if amount == 0 then MAX_BIG_INT else Div(ONE * gasFeesInToken, amount)
  }

  datatype RelayerFeeDetails = RelayerFeeDetails(
    gasFeePercent: int, gasFeeTotal: int, capitalFeePercent: int, capitalFeeTotal: int, relayFeePercent: int,
    relayFeeTotal: int, maxGasFeePercent: int, minDeposit: int, isAmountTooLow: bool)

  /** `relayerFeeDetails`, given the gas fees in the token and the fee limit as a fraction of 1e18. */
  function Details(c: CapitalCostConfig, amount: int, gasFeesInToken: int, feeLimit: int): RelayerFeeDetails
    requires ValidateCapitalCostsConfig(c)
  {
    var gasFeePercent := GasFeePercent(gasFeesInToken, amount);
    var gasFeeTotal := Div(gasFeePercent * amount, ONE);
    var capitalFeePercent := CapitalFeePercent(c, amount);
    var capitalFeeTotal := Div(capitalFeePercent * amount, ONE);
    var maxGasFeePercent := Max(feeLimit - capitalFeePercent, 0);
    var minDeposit := if maxGasFeePercent == 0 then MAX_BIG_INT else Div(gasFeeTotal * ONE, maxGasFeePercent);
    RelayerFeeDetails(
      gasFeePercent, gasFeeTotal, capitalFeePercent, capitalFeeTotal, gasFeePercent + capitalFeePercent,
      gasFeeTotal + capitalFeeTotal, maxGasFeePercent, minDeposit,
      if maxGasFeePercent == 0 then true else amount < minDeposit)
  }

  /**
   `isAmountTooLow` tells whether the fees exceed the limit, up to one unit of the token either way: if it is false
   they exceed `feeLimit` of the amount by less than one unit, if it is true they fall short of it by less than one. A
   negative capital fee widens the first bound by the gas fee it makes room for.
   */
  lemma TooLowMeansOverLimit(c: CapitalCostConfig, amount: int, gasFeesInToken: int, feeLimit: int)
    requires ValidateCapitalCostsConfig(c) && amount >= 0 && gasFeesInToken >= 0 && 0 <= feeLimit <= ONE
    ensures var details := Details(c, amount, gasFeesInToken, feeLimit);
            var f := details.capitalFeePercent;
            && (!details.isAmountTooLow ==>
                  details.relayFeeTotal * ONE < feeLimit * amount + ONE + (if f >= 0 then 0 else feeLimit - f))
            && (details.isAmountTooLow ==> details.relayFeeTotal * ONE > feeLimit * amount - ONE)
    ensures c.lowerBound >= 0 ==> CapitalFeePercent(c, amount) >= 0
  {
    FeesAreNonNegative(c, amount, gasFeesInToken);
    var g, f := GasFeePercent(gasFeesInToken, amount), CapitalFeePercent(c, amount);
    MulMonotone(0, g, 0, amount);
    DivFloors(g * amount, ONE);
    hide CapitalFeePercent, GasFeePercent;
    FeeOfAmount(f, amount);
    if feeLimit > f {
      Threshold(Div(g * amount, ONE), Div(f * amount, ONE), f, feeLimit - f, amount);
    } else {
      MulMonotone(feeLimit, f, amount, amount);
    }
  }

  lemma FeeOfAmount(f: int, amount: int)
    requires amount >= 0
    ensures if f >= 0 then 0 <= Div(f * amount, ONE) * ONE <= f * amount < Div(f * amount, ONE) * ONE + ONE
            else f * amount <= Div(f * amount, ONE) * ONE < f * amount + ONE
  {
    DivNear(f * amount, ONE);
    if f >= 0 {
      MulMonotone(0, f, 0, amount);
    } else {
      MulMonotone(0, -f, 0, amount);
    }
  }

  lemma Threshold(gasTotal: int, capitalTotal: int, f: int, room: int, amount: int)
    requires gasTotal >= 0 && amount >= 0 && 0 < room && room + f <= ONE
    requires if f >= 0 then capitalTotal * ONE <= f * amount < capitalTotal * ONE + ONE
             else f * amount <= capitalTotal * ONE < f * amount + ONE
    ensures var min := Div(gasTotal * ONE, room);
            && (amount >= min ==>
                  (gasTotal + capitalTotal) * ONE < (room + f) * amount + ONE + (if f >= 0 then 0 else room))
            && (amount < min ==> (gasTotal + capitalTotal) * ONE > (room + f) * amount - ONE)
  {
    var min := Div(gasTotal * ONE, room);
    DivFloors(gasTotal * ONE, room);
    assert (room + f) * amount == amount * room + f * amount;
    if amount >= min {
      MulMonotone(min, amount, room, room);
    } else {
      MulMonotone(amount + 1, min, room, room);
      assert (amount + 1) * room == amount * room + room;
    }
  }

  lemma FeesAreNonNegative(c: CapitalCostConfig, amount: int, gasFeesInToken: int)
    requires ValidateCapitalCostsConfig(c) && amount >= 0 && gasFeesInToken >= 0
    ensures GasFeePercent(gasFeesInToken, amount) >= 0
    ensures c.lowerBound >= 0 ==> CapitalFeePercent(c, amount) >= 0
  {
    ScaledIsZeroOnlyForZero(c, amount);
    if amount > 0 {
      DivFloors(ONE * gasFeesInToken, amount);
      ChargeWithin(c, Scaled(c, amount));
      hide Charge;
      DivNear(Charge(c, Scaled(c, amount)) * ONE, Scaled(c, amount));
    }
  }

  /**
   What the details report: percentages and totals add up; the gas fee may take what the capital fee leaves of the limit;
   and the minimum deposit is the least amount, rounded down, of which that much pays for the gas.
   */
  lemma DetailsAddUp(c: CapitalCostConfig, amount: int, gasFeesInToken: int, feeLimit: int)
    requires ValidateCapitalCostsConfig(c) && amount > 0 && gasFeesInToken >= 0
    ensures var r := Details(c, amount, gasFeesInToken, feeLimit);
            var room := feeLimit - r.capitalFeePercent;
            && r.capitalFeePercent == CapitalFeePercent(c, amount)
            && r.gasFeePercent * amount <= gasFeesInToken * ONE < (r.gasFeePercent + 1) * amount
            && r.gasFeeTotal * ONE <= r.gasFeePercent * amount < (r.gasFeeTotal + 1) * ONE
            && r.relayFeePercent == r.gasFeePercent + r.capitalFeePercent
            && r.relayFeeTotal == r.gasFeeTotal + r.capitalFeeTotal
            && (r.capitalFeePercent >= 0 ==>
                  r.capitalFeeTotal * ONE <= r.capitalFeePercent * amount < (r.capitalFeeTotal + 1) * ONE)
            && (room <= 0 ==> r.maxGasFeePercent == 0 && r.minDeposit == MAX_BIG_INT && r.isAmountTooLow)
            && (room > 0 ==>
                  && r.maxGasFeePercent == room && (r.isAmountTooLow <==> amount < r.minDeposit)
                  && r.minDeposit * room <= r.gasFeeTotal * ONE < (r.minDeposit + 1) * room)
  {
    var g, f := GasFeePercent(gasFeesInToken, amount), CapitalFeePercent(c, amount);
    hide CapitalFeePercent;
    DivFloors(ONE * gasFeesInToken, amount);
    MulMonotone(0, g, 0, amount);
    DivFloors(g * amount, ONE);
    if f >= 0 {
      MulMonotone(0, f, 0, amount);
      DivFloors(f * amount, ONE);
    }
    if feeLimit > f {
      var total, room := Div(g * amount, ONE), feeLimit - f;
      DivFloors(total * ONE, room);
      Distribute(Div(total * ONE, room), room);
    }
    Distribute(g, amount);
  }

  lemma Distribute(a: int, b: int)
    ensures (a + 1) * b == a * b + b
  {
  }

  /** The gas fee charged is the gas cost rounded down, by less than one unit and one more for each 1e18 relayed. */
  lemma GasFeeCoversGas(c: CapitalCostConfig, amount: int, gasFeesInToken: int, feeLimit: int)
    requires ValidateCapitalCostsConfig(c) && amount > 0 && gasFeesInToken >= 0
    ensures var total := Details(c, amount, gasFeesInToken, feeLimit).gasFeeTotal;
            total * ONE <= gasFeesInToken * ONE < total * ONE + ONE + amount
  {
    var g := GasFeePercent(gasFeesInToken, amount);
    DivFloors(ONE * gasFeesInToken, amount);
    MulMonotone(0, g, 0, amount);
    DivFloors(g * amount, ONE);
  }

  /**
   A zero amount is priced at `MAX_BIG_INT`, which is 0.9% and not the 100% that was meant, so it counts as too low
   only under fee limits up to that.
   */
  lemma ZeroAmountTooLow(c: CapitalCostConfig, gasFeesInToken: int, feeLimit: int)
    requires ValidateCapitalCostsConfig(c)
    ensures Details(c, 0, gasFeesInToken, feeLimit).isAmountTooLow <==> feeLimit <= MAX_BIG_INT
    ensures MAX_BIG_INT < ONE / 100
  {
    ScaledIsZeroOnlyForZero(c, 0);
    assert MAX_BIG_INT * 0 == 0;
  }
}
