/** BigNumber arithmetic: integers scaled by 1e18 and a division that truncates (src/utils/common.ts:60). */
module FixedPoint {
  import opened Numbers

  /** `fixedPointAdjustment`. */
  const ONE: int := 1_000_000_000_000_000_000

  const MAX_BIG_INT: int := MAX_SAFE_INTEGER

  /** `BigNumber.div`: rounds toward zero. Dividing by zero throws in the source and is excluded here. */
  function Div(a: int, b: int): int
    requires b != 0
  {
    if a >= 0 then (if b > 0 then a / b else -(a / -b))
    else (if b > 0 then -(-a / b) else -a / -b)
  }

  function Ratio(a: int, b: int): real
    requires b != 0
  {
    a as real / b as real
  }

  lemma DivFloors(a: int, d: int)
    requires a >= 0 && d > 0
    ensures 0 <= Div(a, d) && Div(a, d) * d <= a < Div(a, d) * d + d
    ensures Div(a, d) as real <= Ratio(a, d) < Div(a, d) as real + 1.0
  {
    var q := a / d;
    assert a == q * d + a % d;
    assert (q * d) as real == q as real * d as real;
    RealQuotient(a as real, d as real, q as real);
  }

  lemma RealQuotient(a: real, d: real, q: real)
    requires d > 0.0 && q * d <= a < q * d + d
    ensures q <= a / d < q + 1.0
  {
    var x := a / d;
    assert x * d == a;
    Cancel(q, x, d);
    assert (q + 1.0) * d == q * d + d;
    Cancel(q + 1.0, x, d);
  }

  lemma Cancel(x: real, y: real, d: real)
    requires d > 0.0
    ensures x * d <= y * d <==> x <= y
    ensures x * d < y * d <==> x < y
  {
  }

  lemma CancelInt(x: int, y: int, d: int)
    requires d > 0
    ensures x * d <= y * d <==> x <= y
    ensures x * d < y * d <==> x < y
  {
  }

  lemma DivMonotone(a: int, b: int, d: int)
    requires 0 <= a <= b && d > 0
    ensures Div(a, d) <= Div(b, d)
  {
    DivFloors(a, d);
    DivFloors(b, d);
    assert (Div(b, d) + 1) * d == Div(b, d) * d + d;
    CancelInt(Div(a, d), Div(b, d) + 1, d);
  }

  lemma DivExact(a: int, d: int)
    requires a >= 0 && d > 0
    ensures Div(a * d, d) == a
  {
    MulMonotone(0, a, 0, d);
    DivFloors(a * d, d);
    assert (Div(a * d, d) + 1) * d == Div(a * d, d) * d + d;
    CancelInt(Div(a * d, d), a, d);
    CancelInt(a, Div(a * d, d) + 1, d);
  }

  lemma NonNegative(a: real, b: real)
    requires a >= 0.0 && b >= 0.0
    ensures a * b >= 0.0
  {
  }

  lemma MulMonotone(a: int, b: int, c: int, d: int)
    requires 0 <= a <= b && 0 <= c <= d
    ensures 0 <= a * c <= b * d
  {
    assert (b - a) * c >= 0;
    assert b * (d - c) >= 0;
    assert a * c >= 0;
  }

  /** Truncation ignores a common change of sign. */
  lemma DivNegated(a: int, b: int)
    requires b != 0
    ensures Div(-a, -b) == Div(a, b)
  {
  }
}
