/**
 * How far `pow` is from the exact power (packages/lib-base/src/Decimal.ts, lines 17 and 239-263).
 * Distances are real numbers of units of 10^-18.
 */
module PowAccuracy {
  import opened Arithmetic
  import opened Decimals

  /** A Decimal as the real number it stands for. */
  function Real(b: Decimal): real {
    b as real / DIGITS as real
  }

  /** The exact, unrounded power, counted in units of 10^-18. */
  function Exact(b: Decimal, n: nat): real {
    RealPower(Real(b), n) * DIGITS as real
  }

  predicate Near(x: nat, t: real, e: real) {
    t - e <= x as real <= t + e
  }

  /** The error claimed for a power with exponent `n`: the empty product is exact. */
  function Drift(n: nat): real {
    if n == 0 then 0.0 else (n - 1) as real / 2.0
  }

  lemma {:induction false} ExactBounds(b: Decimal, n: nat)
    requires b <= ONE
    ensures 0.0 <= Exact(b, n) <= DIGITS as real
  {
    RealPowerUnit(Real(b), n);
  }

  lemma {:induction false} ExactAdd(b: Decimal, m: nat, n: nat)
    ensures Exact(b, m) * Exact(b, n) == Exact(b, m + n) * DIGITS as real
  {
    RealPowerAdd(Real(b), m, n);
    var D := DIGITS as real;
    var p, q := RealPower(Real(b), m), RealPower(Real(b), n);
    assert (p * D) * (q * D) == ((p * q) * D) * D;
  }

  lemma {:induction false} ScaledBound(w: real, e: real, t: real, d: real)
    requires -e <= w <= e && 0.0 <= t <= d
    ensures -(e * d) <= w * t <= e * d
  {
    RealMulMonotone(0.0, e + w, t, d);
    RealMulMonotone(0.0, e - w, t, d);
    RealMulMonotone(0.0, e, t, d);
    assert (e + w) * t == e * t + w * t;
    assert (e - w) * t == e * t - w * t;
    RealMulMonotone(e, e, t, d);
  }

  /** Each factor's error enters weighted by the other factor, which is at most `d`. */
  lemma {:induction false} ProductError(x: real, y: real, s: real, t: real, e: real, f: real, d: real)
    requires 0.0 <= x <= d && 0.0 <= t <= d
    requires s - e <= x <= s + e && t - f <= y <= t + f
    ensures s * t - (e + f) * d <= x * y <= s * t + (e + f) * d
  {
    ScaledBound(x - s, e, t, d);
    ScaledBound(y - t, f, x, d);
    assert x * y - s * t == (x - s) * t + (y - t) * x;
    assert (e + f) * d == e * d + f * d;
  }

  lemma {:induction false} RoundedMulError(x: nat, y: nat)
    ensures Near(RoundedMul(x, y), x as real * y as real / DIGITS as real, 0.5)
  {
    RoundedMulIsNearest(x, y);
    assert (x * y) as real == x as real * y as real;
  }

  lemma {:induction false} StepError(b: Decimal, x: nat, y: nat, k: nat, j: nat)
    requires b <= ONE && x <= ONE && k >= 1
    requires Near(x, Exact(b, k), Drift(k)) && Near(y, Exact(b, j), Drift(j))
    ensures Near(RoundedMul(x, y), Exact(b, k + j), Drift(k + j))
  {
    if j == 0 {
      assert Exact(b, 0) == DIGITS as real;
      assert y == DIGITS;
      RoundedMulUnit(x);
    } else {
      ExactBounds(b, j);
      ExactAdd(b, k, j);
      RoundedProduct(x, y, Exact(b, k), Exact(b, j), Drift(k), Drift(j), Exact(b, k + j));
    }
  }

  lemma RoundedProduct(x: nat, y: nat, s: real, t: real, e: real, f: real, u: real)
    requires x <= ONE && 0.0 <= t <= DIGITS as real && s * t == u * DIGITS as real
    requires Near(x, s, e) && Near(y, t, f)
    ensures Near(RoundedMul(x, y), u, e + f + 0.5)
  {
    ProductError(x as real, y as real, s, t, e, f, DIGITS as real);
    RoundedMulError(x, y);
  }

  lemma {:induction false} HalvedExponent(k: nat, n: nat)
    ensures k * n == (k + k) * (n / 2) + (if n % 2 == 1 then k else 0)
  {
    var h := n / 2;
    assert n == 2 * h + n % 2;
    assert k * (2 * h) == (k + k) * h;
  }

  /** The invariant of the loop: the square is near `b^k` and the accumulator near `b^j`. */
  lemma {:induction false} PowLoopError(b: Decimal, x: nat, y: nat, n: nat, k: nat, j: nat)
    requires b <= ONE && x <= ONE && k >= 1 && n >= 1
    requires Near(x, Exact(b, k), Drift(k)) && Near(y, Exact(b, j), Drift(j))
    ensures Near(PowLoop(x, y, n), Exact(b, k * n + j), Drift(k * n + j))
    decreases n
  {
    StepError(b, x, y, k, j);
    if n == 1 {
      assert k * n + j == k + j;
    } else {
      StepError(b, x, x, k, k);
      RoundedMulMonotone(x, x, x, ONE);
      RoundedMulUnit(x);
      HalvedExponent(k, n);
      if n % 2 == 1 {
        PowLoopError(b, RoundedMul(x, x), RoundedMul(x, y), n / 2, k + k, k + j);
      } else {
        PowLoopError(b, RoundedMul(x, x), y, n / 2, k + k, j);
      }
    }
  }

  /** For a base up to 1.0, the rounding error of `pow` is at most `(n - 1) / 2` units. */
  lemma {:induction false} PowError(b: Decimal, n: nat)
    requires b <= ONE && n >= 1
    ensures Within(PowValue(b, n) as real, Exact(b, n), (n - 1) as real / 2.0)
  {
    assert RealPower(Real(b), 1) == Real(b);
    assert Near(b, Exact(b, 1), Drift(1));
    assert Exact(b, 0) == DIGITS as real;
    PowLoopError(b, b, ONE, n, 1, 0);
  }

  /** Decaying in two steps differs from decaying in one by at most `n + m - 1` units. */
  lemma {:induction false} PowComposes(b: Decimal, n: nat, m: nat)
    requires b <= ONE && n >= 1 && m >= 1
    ensures Within(PowValue(b, n + m) as real, RoundedMul(PowValue(b, n), PowValue(b, m)) as real, (n + m - 1) as real)
  {
    PowError(b, n + m);
    PowError(b, n);
    PowError(b, m);
    PowMonotoneInExponent(b, 0, n);
    StepError(b, PowValue(b, n), PowValue(b, m), n, m);
  }

  // ---------------------------------------------------------------- bases from 1.0

  /** Half a unit in a product that is at least 1.0. */
  const ROUNDING: real := 0.5 / DIGITS as real

  /** `exact`, times a factor for each of the `n - 1` products that rounding may scale by it. */
  function Scaled(exact: real, n: nat, factor: real): real {
    if n == 0 then exact else exact * RealPower(factor, n - 1)
  }

  /** Between the exact power scaled down and scaled up by the rounding of each product. */
  predicate Tight(x: nat, b: Decimal, n: nat) {
    Scaled(Exact(b, n), n, 1.0 - ROUNDING) <= x as real <= Scaled(Exact(b, n), n, 1.0 + ROUNDING)
  }

  /** Rounding a product that is at least 1.0 scales it by little. */
  lemma RoundedMulScale(x: nat, y: nat, p: real)
    requires x >= ONE && y >= ONE && p == x as real * y as real / DIGITS as real
    ensures RoundedMul(x, y) >= ONE && p * (1.0 - ROUNDING) <= RoundedMul(x, y) as real <= p * (1.0 + ROUNDING)
  {
    RoundedMulMonotone(ONE, ONE, x, y);
    RoundedMulUnit(ONE);
    RoundedMulError(x, y);
    RealMulMonotone(DIGITS as real, x as real, DIGITS as real, y as real);
    assert p >= DIGITS as real;
    HalfAtLeast(p, DIGITS as real, ROUNDING);
  }

  lemma HalfAtLeast(p: real, d: real, r: real)
    requires p >= d > 0.0 && d * r == 0.5 && r > 0.0
    ensures p * (1.0 - r) <= p - 0.5 && p * (1.0 + r) >= p + 0.5
  {
    var h := p * r;
    RealMulMonotone(d, p, r, r);
    assert h >= d * r;
    assert p * (1.0 - r) == p - h && p * (1.0 + r) == p + h;
  }

  /** `z` is the fixed-point product of `x` and `y`, scaled by `f`. */
  predicate IsProduct(x: real, y: real, f: real, z: real) {
    x * y * f == z * DIGITS as real
  }

  /** Both parts' factors, and one more for their product. */
  lemma {:induction false} ScaledProduct(s: real, k: nat, t: real, j: nat, u: real, factor: real)
    requires k >= 1 && j >= 1 && s * t == u * DIGITS as real
    ensures IsProduct(Scaled(s, k, factor), Scaled(t, j, factor), factor, Scaled(u, k + j, factor))
  {
    FactorPower(factor, k, j);
    Regroup(s, t, u, RealPower(factor, k - 1), RealPower(factor, j - 1), factor,
            Scaled(s, k, factor), Scaled(t, j, factor), Scaled(u, k + j, factor));
  }

  lemma {:induction false} FactorPower(factor: real, k: nat, j: nat)
    requires k >= 1 && j >= 1
    ensures RealPower(factor, k + j - 1) == RealPower(factor, k - 1) * (factor * RealPower(factor, j - 1))
  {
    RealPowerAdd(factor, k - 1, j);
    assert k - 1 + j == k + j - 1;
  }

  lemma Regroup(s: real, t: real, u: real, p: real, q: real, f: real, x: real, y: real, z: real)
    requires s * t == u * DIGITS as real && x == s * p && y == t * q && z == u * (p * (f * q))
    ensures IsProduct(x, y, f, z)
  {
    var d := DIGITS as real;
    calc {
      (s * p) * (t * q) * f;
      { Exchange(s, p, t, q); }
      (s * t) * (p * q) * f;
      { RealMulAssoc(s * t, p * q, f); }
      (s * t) * (p * q * f);
      (u * d) * (p * q * f);
      { RealMulAssoc(p, q, f); }
      (u * d) * (p * (q * f));
      { Exchange(u, d, p * (q * f), 1.0); }
      u * (p * (f * q)) * d;
    }
  }

  lemma Exchange(s: real, p: real, t: real, q: real)
    ensures (s * p) * (t * q) == (s * t) * (p * q)
  {
  }

  lemma {:induction false} TightStep(b: Decimal, x: nat, y: nat, k: nat, j: nat)
    requires x >= ONE && y >= ONE && k >= 1 && Tight(x, b, k) && Tight(y, b, j) && (j == 0 ==> y == ONE)
    ensures RoundedMul(x, y) >= ONE && Tight(RoundedMul(x, y), b, k + j)
  {
    if j == 0 {
      RoundedMulUnit(x);
    } else {
      ExactAdd(b, k, j);
      ExactNonNegative(b, k);
      ExactNonNegative(b, j);
      TightParts(x, Exact(b, k), k, y, Exact(b, j), j, Exact(b, k + j));
    }
  }

  lemma {:induction false} TightParts(x: nat, s: real, k: nat, y: nat, t: real, j: nat, u: real)
    requires x >= ONE && y >= ONE && k >= 1 && j >= 1 && s >= 0.0 && t >= 0.0 && s * t == u * DIGITS as real
    requires Scaled(s, k, 1.0 - ROUNDING) <= x as real <= Scaled(s, k, 1.0 + ROUNDING)
    requires Scaled(t, j, 1.0 - ROUNDING) <= y as real <= Scaled(t, j, 1.0 + ROUNDING)
    ensures RoundedMul(x, y) >= ONE
    ensures Scaled(u, k + j, 1.0 - ROUNDING) <= RoundedMul(x, y) as real <= Scaled(u, k + j, 1.0 + ROUNDING)
  {
    var f, g := 1.0 - ROUNDING, 1.0 + ROUNDING;
    ScaledProduct(s, k, t, j, u, f);
    ScaledProduct(s, k, t, j, u, g);
    ScaledPositive(s, k, f);
    ScaledPositive(t, j, f);
    TightProduct(x, Scaled(s, k, f), Scaled(s, k, g), y, Scaled(t, j, f), Scaled(t, j, g),
                 Scaled(u, k + j, f), Scaled(u, k + j, g));
  }

  lemma TightProduct(x: nat, l: real, u: real, y: nat, m: real, v: real, lo: real, hi: real)
    requires x >= ONE && y >= ONE && 0.0 <= l <= x as real <= u && 0.0 <= m <= y as real <= v
    requires IsProduct(l, m, 1.0 - ROUNDING, lo) && IsProduct(u, v, 1.0 + ROUNDING, hi)
    ensures RoundedMul(x, y) >= ONE && lo <= RoundedMul(x, y) as real <= hi
  {
    var q := x as real * y as real;
    RoundedMulScale(x, y, q / DIGITS as real);
    RealMulMonotone(l, x as real, m, y as real);
    RealMulMonotone(x as real, u, y as real, v);
    BetweenScaled(l * m, q, u * v, DIGITS as real, 1.0 - ROUNDING, 1.0 + ROUNDING, lo, hi);
  }

  lemma BetweenScaled(a: real, q: real, c: real, d: real, f: real, g: real, lo: real, hi: real)
    requires 0.0 <= a <= q <= c && d > 0.0 && f > 0.0 && g > 0.0 && a * f == lo * d && c * g == hi * d
    ensures lo <= q / d * f && q / d * g <= hi
  {
    RealMulMonotone(a, q, f, f);
    RealMulMonotone(q, c, g, g);
    assert (q / d * f) * d == q * f && (q / d * g) * d == q * g;
  }

  lemma {:induction false} ScaledPositive(exact: real, n: nat, factor: real)
    requires exact >= 0.0 && factor >= 0.0
    ensures Scaled(exact, n, factor) >= 0.0
  {
    if n > 0 {
      RealPowerNonNegative(factor, n - 1);
      RealMulMonotone(0.0, exact, 0.0, RealPower(factor, n - 1));
    }
  }

  lemma {:induction false} ExactNonNegative(b: Decimal, n: nat)
    ensures Exact(b, n) >= 0.0
  {
    RealPowerNonNegative(Real(b), n);
  }

  /** The loop for bases from 1.0: every product is at least 1.0, so its rounding is relatively small. */
  lemma {:induction false} PowLoopTight(b: Decimal, x: nat, y: nat, n: nat, k: nat, j: nat)
    requires x >= ONE && y >= ONE && k >= 1 && n >= 1
    requires Tight(x, b, k) && Tight(y, b, j) && (j == 0 ==> y == ONE)
    ensures Tight(PowLoop(x, y, n), b, k * n + j)
    decreases n
  {
    TightStep(b, x, y, k, j);
    if n == 1 {
      assert k * n + j == k + j;
    } else {
      TightStep(b, x, x, k, k);
      HalvedExponent(k, n);
      if n % 2 == 1 {
        PowLoopTight(b, RoundedMul(x, x), RoundedMul(x, y), n / 2, k + k, k + j);
      } else {
        PowLoopTight(b, RoundedMul(x, x), y, n / 2, k + k, j);
      }
    }
  }

  /** For bases from 1.0 each of the `n - 1` products scales the exact power by at most half a unit's worth. */
  lemma {:induction false} PowRelativeError(b: Decimal, n: nat)
    requires b >= ONE
    ensures Tight(PowValue(b, n), b, n)
  {
    TightStart(b);
    if n > 0 {
      PowLoopTight(b, b, ONE, n, 1, 0);
      assert 1 * n + 0 == n;
    }
  }

  lemma TightStart(b: Decimal)
    ensures Tight(b, b, 1) && Tight(ONE, b, 0)
  {
    assert RealPower(Real(b), 1) == Real(b) && Exact(b, 1) == b as real;
    assert RealPower(1.0 - ROUNDING, 0) == 1.0 == RealPower(1.0 + ROUNDING, 0);
  }
}
