/** The piecewise linear LP rate curve and the area under it (src/lpFeeCalculator/lpFeeCalculator.ts). */
module LpFeeCalculator {
  import opened Numbers
  import opened FixedPoint

  datatype RateModel = RateModel(UBar: int, R0: int, R1: int, R2: int)

  /** Rates rise, and the kink is not at 100%, nor at 0 with something to rise to before it. */
  predicate IsCurve(m: RateModel) {
    && m.R0 >= 0 && m.R1 >= 0 && m.R2 >= 0
    && m.UBar >= 0 && m.UBar != ONE
    && (m.UBar == 0 ==> m.R1 == 0)
  }

  /** Past a kink above 100% there is no curve, but no utilization goes there either. */
  predicate IsOnCurve(m: RateModel, u: real) {
    IsCurve(m) && 0.0 <= u && (u <= ONE as real || m.UBar < ONE)
  }

  // ---------- the code ----------

  function CalculateInstantaneousRate(m: RateModel, utilization: int): int
    requires m.UBar != ONE
  {
    var beforeKink := if m.UBar == 0 then 0 else Div(Min(utilization, m.UBar) * m.R1, m.UBar);
    var afterKink := Div(Max(0, utilization - m.UBar) * m.R2, ONE - m.UBar);
    m.R0 + beforeKink + afterKink
  }

  function RectangleArea(width: int, rate: int): int {
    Div(width * rate, ONE)
  }

  function TriangleArea(rise: int, width: int): int {
    Div(Div(ONE / 2 * rise * width, ONE), ONE)
  }

  function CalculateAreaUnderRateCurve(m: RateModel, utilization: int): int
    requires m.UBar != ONE
  {
    // Area under first piecewise component
    var utilizationBeforeKink := Min(utilization, m.UBar);
    var rectangle1Area := RectangleArea(utilizationBeforeKink, m.R0);
    var triangle1Area := TriangleArea(CalculateInstantaneousRate(m, utilizationBeforeKink) - m.R0, utilizationBeforeKink);
    // Area under second piecewise component
    var utilizationAfter := Max(0, utilization - m.UBar);
    var rectangle2Area := RectangleArea(utilizationAfter, m.R0 + m.R1);
    var triangle2Area := TriangleArea(CalculateInstantaneousRate(m, utilization) - (m.R0 + m.R1), utilizationAfter);
    rectangle1Area + triangle1Area + rectangle2Area + triangle2Area
  }

  function CalculateApyFromUtilization(m: RateModel, before: int, after: int): int
    requires m.UBar != ONE
  {
    if before == after then CalculateInstantaneousRate(m, before)
    else
      var numerator := CalculateAreaUnderRateCurve(m, after) - CalculateAreaUnderRateCurve(m, before);
      Div(numerator * ONE, after - before)
  }

  // ---------- the curve it approximates ----------

  function Product(a: real, b: real): real { a * b }

  /** A straight line and the area under it from 0 on. */
  function Line(r: real, k: real, x: real): real { r + k * x }

  function AreaUnderLine(r: real, k: real, x: real): real { r * x + k * x * x / 2.0 }

  function Slope1(m: RateModel): real {
    if m.UBar == 0 then 0.0 else Ratio(m.R1, m.UBar)
  }

  function Slope2(m: RateModel): real
    requires m.UBar != ONE
  {
    Ratio(m.R2, ONE - m.UBar)
  }

  function Before(m: RateModel, u: real): real {
    if u <= m.UBar as real then u else m.UBar as real
  }

  function After(m: RateModel, u: real): real {
    if u <= m.UBar as real then 0.0 else u - m.UBar as real
  }

  /** The rate at a utilization, without rounding. */
  function ExactRate(m: RateModel, u: real): real
    requires m.UBar != ONE
  {
    if u <= m.UBar as real then Line(m.R0 as real, Slope1(m), u)
    else Line((m.R0 + m.R1) as real, Slope2(m), u - m.UBar as real)
  }

  /** The integral of the rate from 0 to `u`, without rounding. */
  function ExactArea(m: RateModel, u: real): real
    requires m.UBar != ONE
  {
    (AreaUnderLine(m.R0 as real, Slope1(m), Before(m, u))
     + AreaUnderLine((m.R0 + m.R1) as real, Slope2(m), After(m, u))) / ONE as real
  }

  lemma LineBoundsArea(r: real, k: real, x: real, y: real)
    requires k >= 0.0 && x <= y
    ensures Product(Line(r, k, x), y - x) <= AreaUnderLine(r, k, y) - AreaUnderLine(r, k, x)
                                          <= Product(Line(r, k, y), y - x)
    ensures Line(r, k, x) <= Line(r, k, y)
  {
    var d := y - x;
    assert k * d >= 0.0;
    assert k * d * d >= 0.0;
    assert y == x + d;
    assert AreaUnderLine(r, k, y) - AreaUnderLine(r, k, x) == Line(r, k, x) * d + k * d * d / 2.0;
    assert Line(r, k, y) == Line(r, k, x) + k * d;
    assert Line(r, k, y) * d == Line(r, k, x) * d + k * d * d;
  }

  lemma KinkMeets(m: RateModel)
    requires IsCurve(m)
    ensures Slope1(m) >= 0.0 && (m.UBar < ONE ==> Slope2(m) >= 0.0)
    ensures Line(m.R0 as real, Slope1(m), m.UBar as real) == (m.R0 + m.R1) as real
    ensures Line((m.R0 + m.R1) as real, Slope2(m), 0.0) == (m.R0 + m.R1) as real
  {
    if m.UBar < ONE {
      QuotientPositive(m.R2, ONE - m.UBar);
    }
    if m.UBar > 0 {
      QuotientPositive(m.R1, m.UBar);
      assert Ratio(m.R1, m.UBar) * m.UBar as real == m.R1 as real;
    }
  }

  lemma QuotientPositive(a: int, d: int)
    requires a >= 0 && d > 0
    ensures Ratio(a, d) >= 0.0
  {
  }

  /** From `u` to `v` the area grows by between the rates at the two ends, and the rate does not fall. */
  ghost predicate GrowsByRate(m: RateModel, u: real, v: real)
    requires m.UBar != ONE
  {
    && ExactRate(m, u) <= ExactRate(m, v)
    && Product(ExactRate(m, u), v - u) <= (ExactArea(m, v) - ExactArea(m, u)) * ONE as real
                                       <= Product(ExactRate(m, v), v - u)
  }

  /** `ExactArea` is the integral of `ExactRate`: over any interval it grows by between the rates at its two ends. */
  lemma AreaIsIntegral(m: RateModel, u: real, v: real)
    requires IsOnCurve(m, v) && 0.0 <= u <= v
    ensures GrowsByRate(m, u, v)
  {
    hide ExactRate, ExactArea, GrowsByRate;
    if v <= m.UBar as real {
      GrowsBelowKink(m, u, v);
    } else if u > m.UBar as real {
      GrowsAboveKink(m, u, v);
    } else {
      GrowsAcrossKink(m, u, v);
    }
  }

  lemma GrowsBelowKink(m: RateModel, u: real, v: real)
    requires IsCurve(m) && 0.0 <= u <= v <= m.UBar as real
    ensures GrowsByRate(m, u, v)
  {
    KinkMeets(m);
    Pieces(m, u);
    Pieces(m, v);
    hide ExactRate, ExactArea, Slope1, Slope2, Line, AreaUnderLine, Product;
    LineBoundsArea(m.R0 as real, Slope1(m), u, v);
  }

  lemma GrowsAboveKink(m: RateModel, u: real, v: real)
    requires IsOnCurve(m, v) && m.UBar as real < u <= v
    ensures GrowsByRate(m, u, v)
  {
    KinkMeets(m);
    Pieces(m, u);
    Pieces(m, v);
    hide ExactRate, ExactArea, Slope1, Slope2, Line, AreaUnderLine, Product;
    LineBoundsArea((m.R0 + m.R1) as real, Slope2(m), u - m.UBar as real, v - m.UBar as real);
  }

  lemma GrowsAcrossKink(m: RateModel, u: real, v: real)
    requires IsOnCurve(m, v) && 0.0 <= u <= m.UBar as real < v
    ensures GrowsByRate(m, u, v)
  {
    var r, s, k, l, b := m.R0 as real, (m.R0 + m.R1) as real, Slope1(m), Slope2(m), m.UBar as real;
    KinkMeets(m);
    Pieces(m, u);
    Pieces(m, v);
    hide ExactRate, ExactArea, Slope1, Slope2, Line, AreaUnderLine, Product;
    LineBoundsArea(r, k, u, b);
    LineFromZero(s, l, v - b);
    hide *;
    var area1, area2 := AreaUnderLine(r, k, b) - AreaUnderLine(r, k, u), AreaUnderLine(s, l, v - b);
    Straddle(Line(r, k, u), s, Line(s, l, v - b), b - u, v - b, v - u, area1, area2);
    GrownBetween(m, u, v, Line(r, k, u), Line(s, l, v - b), area1 + area2);
  }

  lemma GrownBetween(m: RateModel, u: real, v: real, low: real, high: real, grown: real)
    requires IsCurve(m) && low == ExactRate(m, u) && high == ExactRate(m, v)
    requires ExactArea(m, v) * ONE as real == ExactArea(m, u) * ONE as real + grown
    requires low <= high && Product(low, v - u) <= grown <= Product(high, v - u)
    ensures GrowsByRate(m, u, v)
  {
    hide ExactRate, ExactArea, Product;
  }

  /** Rate and area on either side of the kink. */
  lemma Pieces(m: RateModel, u: real)
    requires IsCurve(m) && 0.0 <= u
    ensures AreaUnderLine((m.R0 + m.R1) as real, Slope2(m), 0.0) == 0.0
    ensures u <= m.UBar as real ==>
              && ExactRate(m, u) == Line(m.R0 as real, Slope1(m), u)
              && ExactArea(m, u) * ONE as real == AreaUnderLine(m.R0 as real, Slope1(m), u)
    ensures u > m.UBar as real ==>
              && ExactRate(m, u) == Line((m.R0 + m.R1) as real, Slope2(m), u - m.UBar as real)
              && ExactArea(m, u) * ONE as real == AreaUnderLine(m.R0 as real, Slope1(m), m.UBar as real)
                                                  + AreaUnderLine((m.R0 + m.R1) as real, Slope2(m), u - m.UBar as real)
  {
    assert AreaUnderLine((m.R0 + m.R1) as real, Slope2(m), 0.0) == 0.0;
    hide Slope1, Slope2, Line, AreaUnderLine;
  }

  lemma LineFromZero(r: real, k: real, y: real)
    requires k >= 0.0 && y >= 0.0
    ensures r <= Line(r, k, y)
    ensures Product(r, y) <= AreaUnderLine(r, k, y) <= Product(Line(r, k, y), y)
  {
    NonNegative(k, y);
    NonNegative(k * y, y);
    assert Product(Line(r, k, y), y) == r * y + k * y * y;
    assert AreaUnderLine(r, k, y) == r * y + k * y * y / 2.0;
  }

  /** Areas bounded on two adjacent intervals, by rates that meet, are bounded on their union. */
  lemma Straddle(low: real, mid: real, high: real, d: real, e: real, width: real, area1: real, area2: real)
    requires low <= mid <= high && d >= 0.0 && e >= 0.0 && width == d + e
    requires Product(low, d) <= area1 <= Product(mid, d) && Product(mid, e) <= area2 <= Product(high, e)
    ensures Product(low, width) <= area1 + area2 <= Product(high, width)
  {
    ProductMonotone(low, mid, e);
    ProductMonotone(mid, high, d);
    ProductDistributes(low, d, e);
    ProductDistributes(high, d, e);
    hide Product;
  }

  lemma ProductMonotone(a: real, b: real, c: real)
    requires a <= b && c >= 0.0
    ensures Product(a, c) <= Product(b, c)
  {
    NonNegative(b - a, c);
    assert (b - a) * c == b * c - a * c;
  }

  lemma ProductDistributes(a: real, b: real, c: real)
    ensures Product(a, b + c) == Product(a, b) + Product(a, c)
  {
  }

  // ---------- rounding ----------

  // Areas are compared at twice 1e18 their size, where the exact ones need no division.

  function TwiceRectangle(width: real, rate: real): real { 2.0 * width * rate }

  function TwiceTriangle(slope: real, width: real): real { slope * width * width }

  function TwiceExactArea(m: RateModel, x: real, y: real): real
    requires m.UBar != ONE
  {
    TwiceRectangle(x, m.R0 as real) + TwiceTriangle(Slope1(m), x)
    + TwiceRectangle(y, (m.R0 + m.R1) as real) + TwiceTriangle(Slope2(m), y)
  }

  lemma TwiceExact(m: RateModel, u: int)
    requires IsCurve(m) && u >= 0
    ensures TwiceExactArea(m, Min(u, m.UBar) as real, Max(0, u - m.UBar) as real)
            == 2.0 * ONE as real * ExactArea(m, u as real)
  {
    var x, y := Min(u, m.UBar), Max(0, u - m.UBar);
    assert Before(m, u as real) == x as real && After(m, u as real) == y as real;
  }

  lemma RectangleError(width: int, rate: int)
    requires width >= 0 && rate >= 0
    ensures 0.0 <= TwiceRectangle(width as real, rate as real) - 2.0 * (ONE * RectangleArea(width, rate)) as real
                 < 2.0 * ONE as real
  {
    MulMonotone(0, width, 0, rate);
    DivFloors(width * rate, ONE);
    assert (width * rate) as real == width as real * rate as real;
  }

  lemma TriangleFloors(rise: int, width: int)
    requires rise >= 0 && width >= 0
    ensures 0 <= rise * width - 2 * ONE * TriangleArea(rise, width) < 2 * ONE
  {
    var p := rise * width;
    MulMonotone(0, rise, 0, width);
    assert ONE / 2 * rise * width == ONE / 2 * p;
    DivFloors(ONE / 2 * p, ONE);
    DivFloors(Div(ONE / 2 * p, ONE), ONE);
  }

  lemma TriangleFloorsReal(rise: int, width: int)
    requires rise >= 0 && width >= 0
    ensures 0.0 <= Product(rise as real, width as real) - 2.0 * (ONE * TriangleArea(rise, width)) as real
                 < 2.0 * ONE as real
  {
    hide TriangleArea;
    TriangleFloors(rise, width);
    assert (rise * width) as real == rise as real * width as real;
  }

  /** A triangle whose rise was itself rounded down from `k * width`. */
  lemma TriangleError(rise: int, width: int, k: real)
    requires rise >= 0 && width >= 0
    requires rise as real <= Product(k, width as real) < rise as real + 1.0
    ensures 0.0 <= TwiceTriangle(k, width as real) - 2.0 * (ONE * TriangleArea(rise, width)) as real
                 < 2.0 * ONE as real + width as real
  {
    TriangleFloorsReal(rise, width);
    Widen(rise as real, k, width as real);
    hide *;
  }

  lemma Widen(t: real, k: real, w: real)
    requires w >= 0.0 && t <= Product(k, w) < t + 1.0
    ensures Product(t, w) <= TwiceTriangle(k, w) <= Product(t, w) + w
  {
    NonNegative(k * w - t, w);
    NonNegative(t + 1.0 - k * w, w);
    assert (k * w - t) * w == k * w * w - t * w;
    assert (t + 1.0 - k * w) * w == t * w + w - k * w * w;
  }

  lemma RiseBeforeKink(m: RateModel, x: int)
    requires IsCurve(m) && 0 <= x <= m.UBar
    ensures var rise := CalculateInstantaneousRate(m, x) - m.R0;
            && 0 <= rise <= m.R1
            && rise as real <= Product(Slope1(m), x as real) < rise as real + 1.0
  {
    assert Div(0 * m.R2, ONE - m.UBar) == 0;
    if m.UBar > 0 {
      MulMonotone(0, x, 0, m.R1);
      DivFloors(x * m.R1, m.UBar);
      ScaledRatio(x, m.R1, m.UBar);
      MulMonotone(x, m.UBar, m.R1, m.R1);
      DivMonotone(x * m.R1, m.UBar * m.R1, m.UBar);
      DivExact(m.R1, m.UBar);
    }
  }

  lemma RateAfterKink(m: RateModel, u: int)
    requires IsCurve(m) && u >= m.UBar
    ensures CalculateInstantaneousRate(m, u) - (m.R0 + m.R1) == Div((u - m.UBar) * m.R2, ONE - m.UBar)
  {
    assert m.UBar * m.R1 == m.R1 * m.UBar;
    if m.UBar > 0 {
      DivExact(m.R1, m.UBar);
    }
  }

  lemma RiseAfterKink(m: RateModel, u: int)
    requires IsOnCurve(m, u as real) && u >= m.UBar
    ensures var rise := CalculateInstantaneousRate(m, u) - (m.R0 + m.R1);
            && rise >= 0
            && rise as real <= Product(Slope2(m), (u - m.UBar) as real) < rise as real + 1.0
  {
    RateAfterKink(m, u);
    hide CalculateInstantaneousRate;
    var y := u - m.UBar;
    MulMonotone(0, y, 0, m.R2);
    DivFloors(y * m.R2, ONE - m.UBar);
    ScaledRatio(y, m.R2, ONE - m.UBar);
  }

  /** The rate computed is the exact one rounded down. */
  lemma RateError(m: RateModel, u: int)
    requires IsOnCurve(m, u as real)
    ensures var rate := CalculateInstantaneousRate(m, u);
            rate >= 0 && rate as real <= ExactRate(m, u as real) < rate as real + 1.0
  {
    if u <= m.UBar {
      RiseBeforeKink(m, u);
      assert ExactRate(m, u as real) == m.R0 as real + Product(Slope1(m), u as real);
    } else {
      RiseAfterKink(m, u);
      assert ExactRate(m, u as real) == (m.R0 + m.R1) as real + Product(Slope2(m), (u - m.UBar) as real);
    }
  }

  lemma ScaledRatio(x: int, r: int, d: int)
    requires d > 0
    ensures Ratio(r, d) * x as real == Ratio(x * r, d)
  {
    assert (x * r) as real == x as real * r as real;
  }

  lemma SecondTriangle(m: RateModel, u: int)
    requires IsOnCurve(m, u as real)
    ensures var y := Max(0, u - m.UBar);
            var area := TriangleArea(CalculateInstantaneousRate(m, u) - (m.R0 + m.R1), y);
            && area >= 0
            && 0.0 <= TwiceTriangle(Slope2(m), y as real) - 2.0 * (ONE * area) as real < 2.0 * ONE as real + y as real
  {
    var rise := CalculateInstantaneousRate(m, u) - (m.R0 + m.R1);
    if u >= m.UBar {
      hide *;
      RiseAfterKink(m, u);
      TriangleError(rise, u - m.UBar, Slope2(m));
      TriangleFloors(rise, u - m.UBar);
      TriangleMonotone(0, 0, rise, u - m.UBar);
    } else {
      assert ONE / 2 * rise * 0 == 0;
    }
  }

  /** The area computed is never above the exact one, and less than 4.5 wei below it. */
  lemma AreaError(m: RateModel, u: int)
    requires IsCurve(m) && 0 <= u <= ONE
    ensures 0.0 <= ExactArea(m, u as real) - CalculateAreaUnderRateCurve(m, u) as real < 4.5
  {
    var x, y := Min(u, m.UBar), Max(0, u - m.UBar);
    var rise1 := CalculateInstantaneousRate(m, x) - m.R0;
    var rise2 := CalculateInstantaneousRate(m, u) - (m.R0 + m.R1);
    AreaPieces(m, u);
    TwiceExact(m, u);
    ErrorBeforeKink(m, x);
    hide CalculateAreaUnderRateCurve, ExactArea, CalculateInstantaneousRate, RectangleArea, TriangleArea, TwiceExactArea;
    RectangleError(y, m.R0 + m.R1);
    SecondTriangle(m, u);
    hide *;
    SumOfErrors(TwiceRectangle(x as real, m.R0 as real), TwiceTriangle(Slope1(m), x as real),
                TwiceRectangle(y as real, (m.R0 + m.R1) as real), TwiceTriangle(Slope2(m), y as real),
                RectangleArea(x, m.R0), TriangleArea(rise1, x),
                RectangleArea(y, m.R0 + m.R1), TriangleArea(rise2, y),
                x, y, ExactArea(m, u as real));
  }

  lemma ErrorBeforeKink(m: RateModel, x: int)
    requires IsCurve(m) && 0 <= x <= m.UBar
    ensures 0.0 <= TwiceRectangle(x as real, m.R0 as real) - 2.0 * (ONE * RectangleArea(x, m.R0)) as real
                 < 2.0 * ONE as real
    ensures var area := TriangleArea(CalculateInstantaneousRate(m, x) - m.R0, x);
            0.0 <= TwiceTriangle(Slope1(m), x as real) - 2.0 * (ONE * area) as real < 2.0 * ONE as real + x as real
  {
    RectangleError(x, m.R0);
    RiseBeforeKink(m, x);
    hide *;
    TriangleError(CalculateInstantaneousRate(m, x) - m.R0, x, Slope1(m));
  }

  lemma AreaPieces(m: RateModel, u: int)
    requires IsCurve(m) && 0 <= u <= ONE
    ensures var (x, y) := (Min(u, m.UBar), Max(0, u - m.UBar));
            && x >= 0 && y >= 0 && x + y == u
            && CalculateAreaUnderRateCurve(m, u) ==
               RectangleArea(x, m.R0) + TriangleArea(CalculateInstantaneousRate(m, x) - m.R0, x)
               + RectangleArea(y, m.R0 + m.R1)
               + TriangleArea(CalculateInstantaneousRate(m, u) - (m.R0 + m.R1), y)
            && TwiceExactArea(m, x as real, y as real) ==
               TwiceRectangle(x as real, m.R0 as real) + TwiceTriangle(Slope1(m), x as real)
               + TwiceRectangle(y as real, (m.R0 + m.R1) as real) + TwiceTriangle(Slope2(m), y as real)
  {
    hide CalculateInstantaneousRate, RectangleArea, TriangleArea, TwiceRectangle, TwiceTriangle;
  }

  lemma SumOfErrors(e1: real, e2: real, e3: real, e4: real, a1: int, a2: int, a3: int, a4: int, x: int, y: int,
                    exact: real)
    requires 0 <= x + y <= ONE
    requires 0.0 <= e1 - 2.0 * (ONE * a1) as real < 2.0 * ONE as real
    requires 0.0 <= e2 - 2.0 * (ONE * a2) as real < 2.0 * ONE as real + x as real
    requires 0.0 <= e3 - 2.0 * (ONE * a3) as real < 2.0 * ONE as real
    requires 0.0 <= e4 - 2.0 * (ONE * a4) as real < 2.0 * ONE as real + y as real
    requires e1 + e2 + e3 + e4 == 2.0 * ONE as real * exact
    ensures 0.0 <= exact - (a1 + a2 + a3 + a4) as real < 4.5
  {
  }

  // ---------- monotonicity ----------

  lemma TriangleMonotone(rise: int, width: int, rise': int, width': int)
    requires 0 <= rise <= rise' && 0 <= width <= width'
    ensures 0 <= TriangleArea(rise, width) <= TriangleArea(rise', width')
  {
    MulMonotone(rise, rise', width, width');
    var a, b := ONE / 2 * rise * width, ONE / 2 * rise' * width';
    assert a == ONE / 2 * (rise * width) && b == ONE / 2 * (rise' * width');
    DivMonotone(a, b, ONE);
    DivFloors(a, ONE);
    DivMonotone(Div(a, ONE), Div(b, ONE), ONE);
    DivFloors(Div(a, ONE), ONE);
  }

  lemma RateMonotone(m: RateModel, u: int, v: int)
    requires IsOnCurve(m, v as real) && 0 <= u <= v
    ensures m.R0 <= CalculateInstantaneousRate(m, u) <= CalculateInstantaneousRate(m, v)
  {
    var x, x' := Min(u, m.UBar), Min(v, m.UBar);
    var y, y' := Max(0, u - m.UBar), Max(0, v - m.UBar);
    MulMonotone(x, x', m.R1, m.R1);
    MulMonotone(y, y', m.R2, m.R2);
    if m.UBar < ONE {
      DivMonotone(y * m.R2, y' * m.R2, ONE - m.UBar);
      DivFloors(y * m.R2, ONE - m.UBar);
    }
    if m.UBar > 0 {
      DivMonotone(x * m.R1, x' * m.R1, m.UBar);
      DivFloors(x * m.R1, m.UBar);
    }
  }

  /** More utilization never means less area, rounding included. */
  lemma AreaMonotone(m: RateModel, u: int, v: int)
    requires IsOnCurve(m, v as real) && 0 <= u <= v
    ensures 0 <= CalculateAreaUnderRateCurve(m, u) <= CalculateAreaUnderRateCurve(m, v)
  {
    var x, x' := Min(u, m.UBar), Min(v, m.UBar);
    var y, y' := Max(0, u - m.UBar), Max(0, v - m.UBar);
    MulMonotone(x, x', m.R0, m.R0);
    DivMonotone(x * m.R0, x' * m.R0, ONE);
    DivFloors(x * m.R0, ONE);
    MulMonotone(y, y', m.R0 + m.R1, m.R0 + m.R1);
    DivMonotone(y * (m.R0 + m.R1), y' * (m.R0 + m.R1), ONE);
    DivFloors(y * (m.R0 + m.R1), ONE);
    RateMonotone(m, x, x');
    TriangleMonotone(CalculateInstantaneousRate(m, x) - m.R0, x, CalculateInstantaneousRate(m, x') - m.R0, x');
    RateMonotone(m, u, v);
    SecondTriangleMonotone(m, u, v);
  }

  lemma SecondTriangleMonotone(m: RateModel, u: int, v: int)
    requires IsOnCurve(m, v as real) && 0 <= u <= v
    ensures 0 <= TriangleArea(CalculateInstantaneousRate(m, u) - (m.R0 + m.R1), Max(0, u - m.UBar))
              <= TriangleArea(CalculateInstantaneousRate(m, v) - (m.R0 + m.R1), Max(0, v - m.UBar))
  {
    var rise, rise' := CalculateInstantaneousRate(m, u) - (m.R0 + m.R1), CalculateInstantaneousRate(m, v) - (m.R0 + m.R1);
    if u >= m.UBar {
      RiseAfterKink(m, u);
      RateMonotone(m, u, v);
      TriangleMonotone(rise, u - m.UBar, rise', v - m.UBar);
    } else {
      assert ONE / 2 * rise * 0 == 0;
      SecondTriangle(m, v);
    }
  }

  // ---------- the realized APY ----------

  /** The order of the two utilizations does not matter. */
  lemma ApySymmetric(m: RateModel, before: int, after: int)
    requires m.UBar != ONE
    ensures CalculateApyFromUtilization(m, before, after) == CalculateApyFromUtilization(m, after, before)
  {
    if before != after {
      hide CalculateAreaUnderRateCurve, ExactArea, ExactRate;
      var n := CalculateAreaUnderRateCurve(m, after) - CalculateAreaUnderRateCurve(m, before);
      assert -(n * ONE) == -n * ONE;
      DivNegated(n * ONE, after - before);
    }
  }

  /** How far rounding can move the APY of an interval of this many wei of utilization. */
  function Slack(before: int, after: int): real
    requires before != after
  {
    4.5 * ONE as real / (after - before) as real
  }

  /**
   The realized APY is never negative, and stays within 4.5e18 / (after - before) + 1 of the interval between the exact
   rates at the two utilizations. Where these are one it is the exact rate rounded down.
   */
  lemma ApyBetweenRates(m: RateModel, before: int, after: int)
    requires IsCurve(m) && 0 <= before <= after <= ONE
    ensures var apy := CalculateApyFromUtilization(m, before, after);
            && apy >= 0
            && if before == after then apy as real <= ExactRate(m, before as real) < apy as real + 1.0
               else ExactRate(m, before as real) - Slack(before, after) - 1.0 < apy as real
                    < ExactRate(m, after as real) + Slack(before, after)
  {
    if before == after {
      RateError(m, before);
      return;
    }
    hide CalculateAreaUnderRateCurve, ExactArea, ExactRate;
    var n := CalculateAreaUnderRateCurve(m, after) - CalculateAreaUnderRateCurve(m, before);
    AreaMonotone(m, before, after);
    AreaError(m, before);
    AreaError(m, after);
    AreaIsIntegral(m, before as real, after as real);
    ScaledQuotient(n, ExactArea(m, after as real) - ExactArea(m, before as real), after - before,
                   ExactRate(m, before as real), ExactRate(m, after as real));
  }

  lemma ScaledQuotient(n: int, grown: real, d: int, low: real, high: real)
    requires n >= 0 && d > 0
    requires grown - 4.5 < n as real < grown + 4.5
    requires Product(low, d as real) <= grown * ONE as real <= Product(high, d as real)
    ensures var (q, slack) := (Div(n * ONE, d), 4.5 * ONE as real / d as real);
            q >= 0 && low - slack - 1.0 < q as real && q as real < high + slack
  {
    DivFloors(n * ONE, d);
    var q, slack, w := Ratio(n * ONE, d), 4.5 * ONE as real / d as real, d as real;
    assert Product(q, w) == n as real * ONE as real;
    assert Product(slack, w) == 4.5 * ONE as real;
    hide Product;
    SumBelow(q, slack, low, w);
    SumBelow(high, slack, q, w);
  }

  /** If a times w and b times w together exceed c times w, then a and b together exceed c. */
  lemma SumBelow(a: real, b: real, c: real, w: real)
    requires w > 0.0 && Product(c, w) < Product(a, w) + Product(b, w)
    ensures c < a + b
  {
    assert (a + b) * w == a * w + b * w;
    Cancel(c, a + b, w);
  }

  /**
   With the kink at 0 and a rate to reach there, the code and the curve part: the rate at full utilization lacks R1, and
   the area lacks half of it.
   */
  lemma KinkAtZeroIsNoCurve(m: RateModel)
    requires m.UBar == 0 && m.R0 >= 0 && m.R1 >= 0 && m.R2 >= 0
    ensures CalculateInstantaneousRate(m, ONE) as real == ExactRate(m, ONE as real) - m.R1 as real
    ensures var missing := ExactArea(m, ONE as real) - CalculateAreaUnderRateCurve(m, ONE) as real;
            -0.5 <= missing - m.R1 as real / 2.0 <= 0.5
  {
    DivExact(m.R2, ONE);
    DivExact(m.R0 + m.R1, ONE);
    assert CalculateInstantaneousRate(m, ONE) == m.R0 + m.R2;
    assert Slope2(m) == m.R2 as real / ONE as real;
    HalfRise(m.R2 - m.R1);
    assert CalculateAreaUnderRateCurve(m, ONE) == m.R0 + m.R1 + TriangleArea(m.R2 - m.R1, ONE);
    assert ExactArea(m, ONE as real) == (m.R0 + m.R1) as real + m.R2 as real / 2.0;
  }

  lemma HalfRise(rise: int)
    ensures -0.5 <= TriangleArea(rise, ONE) as real - rise as real / 2.0 <= 0.5
  {
    var half := ONE / 2;
    if rise >= 0 {
      DivExact(half * rise, ONE);
      HalfOf(rise);
    } else {
      DivExact(half * -rise, ONE);
      HalfOf(-rise);
      assert half * rise == -(half * -rise);
    }
  }

  lemma HalfOf(size: int)
    requires size >= 0
    ensures -0.5 <= Div(ONE / 2 * size, ONE) as real - size as real / 2.0 <= 0.0
  {
    var q := Div(ONE / 2 * size, ONE);
    DivFloors(ONE / 2 * size, ONE);
    assert 2 * q <= size < 2 * q + 2;
  }
}
