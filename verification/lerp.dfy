/** Linear interpolation helpers (lerp.py), over exact reals. */
module Lerp {

  function Min(a: real, b: real): real { if a <= b then a else b }
  function Max(a: real, b: real): real { if a >= b then a else b }

  /** The number in [0, 1] closest to n (clamp_01). */
  function Clamp01(n: real): (r: real)
    ensures 0.0 <= r <= 1.0
    ensures 0.0 <= n <= 1.0 ==> r == n
    ensures n < 0.0 ==> r == 0.0
    ensures 1.0 < n ==> r == 1.0
  {
    Max(Min(n, 1.0), 0.0)
  }

  /** Interpolation on the segment from (0, y1) to (1, y2), with n clamped
      to [0, 1] first (lerp_01). */
  function Lerp01(y1: real, y2: real, n: real): (r: real)
    ensures n <= 0.0 ==> r == y1
    ensures 1.0 <= n ==> r == y2
    ensures 0.0 < n < 1.0 ==> r == y1 + (y2 - y1) * n
  {
    y1 + (y2 - y1) * Clamp01(n)
  }

  /** The y-value at n on the line through (x1, y1) and (x2, y2) (lerp_xy).
      The code divides by x2 - x1, so the two x-values must differ; it does
      not clamp n to [x1, x2]. */
  function LerpXY(x1: real, x2: real, y1: real, y2: real, n: real): (r: real)
    requires x1 != x2
    ensures (r - y1) * (x2 - x1) == (y2 - y1) * (n - x1)
    ensures n == x1 ==> r == y1
    ensures n == x2 ==> r == y2
  {
    var percentage := (n - x1) / (x2 - x1);
    y1 + (y2 - y1) * percentage
  }

  /** The point (n, r) lies on the line: the defining equation has exactly
      one solution, so it determines the result of LerpXY. */
  lemma LerpXYUnique(x1: real, x2: real, y1: real, y2: real, n: real, r: real)
    requires x1 != x2
    requires (r - y1) * (x2 - x1) == (y2 - y1) * (n - x1)
    ensures r == LerpXY(x1, x2, y1, y2, n)
  {
    var s := LerpXY(x1, x2, y1, y2, n);
    assert (r - s) * (x2 - x1) == 0.0;
  }

  /** Clamping twice is clamping once. */
  lemma Clamp01Idempotent(n: real)
    ensures Clamp01(Clamp01(n)) == Clamp01(n)
  {
  }

  /** The product of two non-negative reals is non-negative. */
  lemma MulNonNegative(a: real, b: real)
    requires 0.0 <= a && 0.0 <= b
    ensures 0.0 <= a * b
  {
  }

  /** The product of two positive reals is positive. */
  lemma MulPositive(a: real, b: real)
    requires 0.0 < a && 0.0 < b
    ensures 0.0 < a * b
  {
  }

  /** On [0, 1] the result is between y1 and y2, whichever is larger. */
  lemma ScaledBetween(y1: real, y2: real, t: real)
    requires 0.0 <= t <= 1.0
    ensures Min(y1, y2) <= y1 + (y2 - y1) * t <= Max(y1, y2)
  {
    var d := if y1 <= y2 then y2 - y1 else y1 - y2;
    MulNonNegative(d, t);
    MulNonNegative(d, 1.0 - t);
    assert d * (1.0 - t) == d - d * t;
  }

  /** lerp_01 never leaves the closed interval between y1 and y2. */
  lemma Lerp01Between(y1: real, y2: real, n: real)
    ensures Min(y1, y2) <= Lerp01(y1, y2, n) <= Max(y1, y2)
  {
    ScaledBetween(y1, y2, Clamp01(n));
  }

  /** lerp_xy stays between y1 and y2 while n is between x1 and x2. */
  lemma LerpXYBetween(x1: real, x2: real, y1: real, y2: real, n: real)
    requires x1 < x2 && x1 <= n <= x2
    ensures Min(y1, y2) <= LerpXY(x1, x2, y1, y2, n) <= Max(y1, y2)
  {
    FractionBetween(n - x1, x2 - x1);
    ScaledBetween(y1, y2, (n - x1) / (x2 - x1));
  }

  /** A share a of a positive whole w, with 0 <= a <= w, lies in [0, 1]. */
  lemma FractionBetween(a: real, w: real)
    requires 0.0 <= a <= w && 0.0 < w
    ensures 0.0 <= a / w <= 1.0
  {
    var t := a / w;
    assert t * w == a;
    if t < 0.0 {
      MulPositive(-t, w);
      assert false;
    }
    if t > 1.0 {
      MulPositive(t - 1.0, w);
      assert false;
    }
  }

  /** lerp_01 is lerp_xy with x1 = 0 and x2 = 1 applied to the clamped input. */
  lemma Lerp01IsLerpXY(y1: real, y2: real, n: real)
    ensures Lerp01(y1, y2, n) == LerpXY(0.0, 1.0, y1, y2, Clamp01(n))
  {
  }

  /** Outside [x1, x2] lerp_xy extrapolates along the line: the test of
      lerp_xy expects y1 at x1 - 35 and y2 at x2 + 91273, and the code gives
      neither. */
  lemma LerpXYExtrapolates()
    ensures LerpXY(10.0, 35.0, 40.0, 5000.0, 10.0 - 35.0) == -6904.0
    ensures LerpXY(10.0, 35.0, 40.0, 5000.0, 35.0 + 91273.0) != 5000.0
  {
  }

  /** lerp_xy with n first clamped to the interval spanned by x1 and x2: the
      behaviour the test of lerp_xy expects. */
  function LerpXYClamped(x1: real, x2: real, y1: real, y2: real, n: real): (r: real)
    requires x1 != x2
    ensures x1 < x2 ==> (n <= x1 ==> r == y1) && (x2 <= n ==> r == y2)
    ensures x2 < x1 ==> (x1 <= n ==> r == y1) && (n <= x2 ==> r == y2)
  {
    LerpXY(x1, x2, y1, y2, Max(Min(n, Max(x1, x2)), Min(x1, x2)))
  }

  /** Inside the interval the clamped and the unclamped form agree, so a
      caller that only passes n between x1 and x2 sees no difference. */
  lemma LerpXYClampedAgrees(x1: real, x2: real, y1: real, y2: real, n: real)
    requires x1 != x2 && Min(x1, x2) <= n <= Max(x1, x2)
    ensures LerpXYClamped(x1, x2, y1, y2, n) == LerpXY(x1, x2, y1, y2, n)
  {
  }

  /** The expectations of the clamp_01 test. */
  lemma Clamp01TestVector()
    ensures Clamp01(-52.12) == 0.0 && Clamp01(0.0) == 0.0 && Clamp01(0.4287) == 0.4287
    ensures Clamp01(1.0) == 1.0 && Clamp01(3910.124) == 1.0
  {
  }

  /** The expectations of the lerp_01 test (y1 = 20, y2 = 200) at and
      beyond the ends of [0, 1]. */
  lemma Lerp01TestVectorLow()
    ensures Lerp01(20.0, 200.0, -129.0) == 20.0 && Lerp01(20.0, 200.0, 0.0) == 20.0
  {
  }

  lemma Lerp01TestVectorHigh()
    ensures Lerp01(20.0, 200.0, 1.0) == 200.0 && Lerp01(20.0, 200.0, 18324.178) == 200.0
  {
  }

  /** The expectation of the lerp_01 test inside [0, 1]. */
  lemma Lerp01TestVectorInside()
    ensures Lerp01(20.0, 200.0, 0.25) == 0.25 * (200.0 - 20.0) + 20.0
  {
  }

  /** The expectations of the lerp_xy test that the code meets; the other two
      hold of the clamped form only (see LerpXYExtrapolates). */
  lemma LerpXYTestVector()
    ensures LerpXY(10.0, 35.0, 40.0, 5000.0, 10.0) == 40.0
    ensures LerpXY(10.0, 35.0, 40.0, 5000.0, 22.3) == ((22.3 - 10.0) / (35.0 - 10.0)) * (5000.0 - 40.0) + 40.0
    ensures LerpXY(10.0, 35.0, 40.0, 5000.0, 35.0) == 5000.0
    ensures LerpXYClamped(10.0, 35.0, 40.0, 5000.0, 10.0 - 35.0) == 40.0
    ensures LerpXYClamped(10.0, 35.0, 40.0, 5000.0, 35.0 + 91273.0) == 5000.0
  {
  }
}
