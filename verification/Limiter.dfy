/** The soft limiter of the mixer (client/native/libvoice_engine.c), over exact real arithmetic. */
module Limiter {

  /** A 16-bit PCM sample. */
  type Sample = x: int | -32768 <= x <= 32767

  const KNEE := 1.5

  /** Cubic below the knee, saturated beyond it. */
  function Soft(x: real): real {
    if x >= KNEE then 1.0
    else if x <= -KNEE then -1.0
    else x - (4.0 / 27.0) * (x * x * x)
  }

  /** C's conversion of a floating value to an integer: toward zero. */
  function Truncate(y: real): int {
    if y >= 0.0 then y.Floor else -((-y).Floor)
  }

  // ---------------------------------------------------------------------------
  // Shape of the curve

  lemma SoftOdd(x: real)
    ensures Soft(-x) == -Soft(x)
  {
  }

  lemma SquareBetween(a: real, m: real)
    requires -m <= a <= m
    ensures 0.0 <= a * a <= m * m
  {
  }

  lemma CubeDifference(x: real, y: real)
    ensures y * y * y - x * x * x == (x * x + x * y + y * y) * (y - x)
  {
  }

  lemma SumBounds(xx: real, xy: real, yy: real)
    requires 0.0 <= xx <= 2.25 && 0.0 <= yy <= 2.25 && xx + 2.0 * xy + yy >= 0.0 && xx - 2.0 * xy + yy >= 0.0
    ensures 0.0 <= xx + xy + yy <= 6.75
  {
  }

  lemma QuadraticBounds(x: real, y: real)
    requires -KNEE <= x <= KNEE && -KNEE <= y <= KNEE
    ensures 0.0 <= x * x + x * y + y * y <= 6.75
  {
    SquareBetween(x, KNEE);
    SquareBetween(y, KNEE);
    SquareBetween(x + y, 3.0);
    SquareBetween(x - y, 3.0);
    assert (x + y) * (x + y) == x * x + 2.0 * (x * y) + y * y;
    assert (x - y) * (x - y) == x * x - 2.0 * (x * y) + y * y;
    SumBounds(x * x, x * y, y * y);
  }

  lemma RiseBounds(q: real, width: real, rise: real)
    requires 0.0 <= q <= 6.75 && width >= 0.0 && rise == q * width
    ensures 0.0 <= rise <= 6.75 * width
  {
  }

  /** The slope of the cubic between two points of [-1.5, 1.5] lies between 0 and 1. */
  lemma CubicSlope(x: real, y: real)
    requires -KNEE <= x <= y <= KNEE
    ensures var c := 4.0 / 27.0; var d := (y - c * (y * y * y)) - (x - c * (x * x * x));
      0.0 <= d <= y - x
  {
    QuadraticBounds(x, y);
    CubeDifference(x, y);
    RiseBounds(x * x + x * y + y * y, y - x, y * y * y - x * x * x);
  }

  function Clamp(x: real): real {
    if x >= KNEE then KNEE else if x <= -KNEE then -KNEE else x
  }

  /** The limiter with its argument clamped to the knee: the same function in one piece, so it has no jump there. */
  lemma SoftIsClampedCubic(x: real)
    ensures var k := Clamp(x); Soft(x) == k - (4.0 / 27.0) * (k * k * k)
  {
  }

  /** Monotone and 1-Lipschitz, hence continuous everywhere and at the knees in particular. */
  lemma SoftMonotoneLipschitz(x: real, y: real)
    requires x <= y
    ensures 0.0 <= Soft(y) - Soft(x) <= y - x
  {
    SoftIsClampedCubic(x);
    SoftIsClampedCubic(y);
    CubicSlope(Clamp(x), Clamp(y));
  }

  lemma SoftBounded(x: real)
    ensures -1.0 <= Soft(x) <= 1.0
    ensures x >= 0.0 ==> Soft(x) >= 0.0
  {
    SoftMonotoneLipschitz(-KNEE, Clamp(x));
    SoftMonotoneLipschitz(Clamp(x), KNEE);
    SoftIsClampedCubic(x);
    SoftIsClampedCubic(Clamp(x));
    if x >= 0.0 {
      SoftMonotoneLipschitz(0.0, x);
    }
  }

  // ---------------------------------------------------------------------------
  // From the accumulated sum to a sample

  lemma TruncateProperties(x: real, y: real)
    ensures Truncate(-x) == -Truncate(x)
    ensures x <= y ==> Truncate(x) <= Truncate(y)
    ensures x <= y ==> (Truncate(y) - Truncate(x)) as real < y - x + 1.0
  {
  }

  lemma ScaledBounds(y: real)
    requires -1.0 <= y <= 1.0
    ensures -32767 <= Truncate(y * 32767.0) <= 32767
  {
  }

  /** One output sample of the mixer for a given sum of the inputs. */
  function Limit(sum: real): (s: Sample)
    ensures -32767 <= s <= 32767
  {
    SoftBounded(sum / 32768.0);
    ScaledBounds(Soft(sum / 32768.0));
    Truncate(Soft(sum / 32768.0) * 32767.0)
  }

  /** The limiter on sums: odd, monotone, and moving at most one step more than the sum does. */
  lemma LimitShape(a: real, b: real)
    ensures Limit(-a) == -Limit(a)
    ensures a <= b ==> Limit(a) <= Limit(b) && (Limit(b) - Limit(a)) as real < b - a + 1.0
    ensures a >= KNEE * 32768.0 ==> Limit(a) == 32767
  {
    SoftOdd(a / 32768.0);
    assert (-a) / 32768.0 == -(a / 32768.0);
    TruncateProperties(Soft(a / 32768.0) * 32767.0, Soft(b / 32768.0) * 32767.0);
    if a <= b {
      SoftMonotoneLipschitz(a / 32768.0, b / 32768.0);
    }
  }

  /** The sample for a sum of size a: 32767 * (x - 4x^3/27) with x = a / 32768, rounded down, and 32767 beyond the knee. */
  ghost predicate OnCurve(s: int, a: real) {
    if a > 49152.0 then s == 32767
    else
      var x := a / 32768.0;
      s as real <= 32767.0 * (x - 4.0 * (x * x * x) / 27.0) < s as real + 1.0
  }

  lemma LimitAbove(a: real)
    requires a >= 0.0
    ensures OnCurve(Limit(a), a)
  {
    var x := a / 32768.0;
    SoftBounded(x);
    if a >= 49152.0 {
      assert Soft(x) == 1.0;
    }
  }

  /** The limiter's curve, on both sides of zero. */
  lemma LimitCurve(sum: real)
    ensures if sum >= 0.0 then OnCurve(Limit(sum), sum) else OnCurve(-Limit(sum), -sum)
  {
    if sum >= 0.0 {
      LimitAbove(sum);
    } else {
      LimitAbove(-sum);
      LimitShape(sum, sum);
    }
  }
}
