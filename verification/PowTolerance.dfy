/**
 * The tolerance the library's own test asks of `pow` (packages/lib-base/test/Decimal.test.ts, lines
 * 190-201): within 10^-9 of the exact power, for every base up to 1.0 and every 32-bit exponent.
 *
 * The linear bound of PowAccuracy gives this up to exponents of two billion. Beyond, a base within
 * 2.6 * 10^-10 of 1.0 is squared almost exactly at first, and any other base has decayed so far
 * after 2^29 steps that earlier errors shrink in the multiplications that are left.
 */
module PowTolerance {
  import opened Arithmetic
  import opened Decimals
  import opened PowAccuracy

  const TOLERANCE: real := 1_000_000_000.0
  const NEAR_ONE: nat := 260_000_000

  // ---------------------------------------------------------------- bases next to 1.0

  /** Error per unit of exponent for such bases. */
  const SLOPE: real := 0.2265

  lemma {:induction false} SlopeLoop(b: Decimal, x: nat, y: nat, n: nat, k: nat, j: nat)
    requires b <= ONE && x <= ONE && n >= 1
    requires Near(x, Exact(b, k), SLOPE * k as real - 0.5)
    requires Near(y, Exact(b, j), SLOPE * j as real + 1.0)
    ensures Near(PowLoop(x, y, n), Exact(b, k * n + j), SLOPE * (k * n + j) as real + 1.0)
    decreases n
  {
    Combine(b, x, y, k, j, SLOPE * k as real - 0.5, SLOPE * j as real + 1.0);
    if n == 1 {
      assert k * n + j == k + j;
    } else {
      Combine(b, x, x, k, k, SLOPE * k as real - 0.5, SLOPE * k as real - 0.5);
      RoundedMulMonotone(x, x, x, ONE);
      RoundedMulUnit(x);
      HalvedExponent(k, n);
      if n % 2 == 1 {
        SlopeLoop(b, RoundedMul(x, x), RoundedMul(x, y), n / 2, k + k, k + j);
      } else {
        SlopeLoop(b, RoundedMul(x, x), y, n / 2, k + k, j);
      }
    }
  }

  lemma {:induction false} Combine(b: Decimal, x: nat, y: nat, k: nat, j: nat, e: real, f: real)
    requires b <= ONE && x <= ONE && Near(x, Exact(b, k), e) && Near(y, Exact(b, j), f)
    ensures Near(RoundedMul(x, y), Exact(b, k + j), e + f + 0.5)
  {
    ExactBounds(b, j);
    ExactAdd(b, k, j);
    RoundedProduct(x, y, Exact(b, k), Exact(b, j), e, f, Exact(b, k + j));
  }

  /** The first two squarings of `1.0 - t` lose only terms in t^2. */
  lemma {:induction false} FirstSquares(t: nat)
    requires t <= NEAR_ONE
    ensures RoundedMul(ONE - t, ONE - t) == ONE - 2 * t
    ensures RoundedMul(ONE - 2 * t, ONE - 2 * t) == ONE - 4 * t
    ensures Near(ONE - 2 * t, Exact(ONE - t, 2), 0.0676)
    ensures Near(ONE - 4 * t, Exact(ONE - t, 4), 0.4056)
  {
    SquareNearOne(t);
    SquareNearOne(2 * t);
    var u := t as real / DIGITS as real;
    assert Real(ONE - t) == 1.0 - u;
    PowersNearOne(u);
  }

  lemma {:induction false} PowersNearOne(u: real)
    requires 0.0 <= u <= 0.00000000026
    ensures 1.0 - 2.0 * u <= RealPower(1.0 - u, 2) <= 1.0 - 2.0 * u + 0.0000000000000000000676
    ensures 1.0 - 4.0 * u <= RealPower(1.0 - u, 4) <= 1.0 - 4.0 * u + 0.0000000000000000004056
  {
    var c := 1.0 - u;
    assert RealPower(c, 0) == 1.0 && RealPower(c, 1) == c && RealPower(c, 2) == c * c;
    RealPowerAdd(c, 2, 2);
    SmallPowers(u, RealPower(c, 2), RealPower(c, 4));
    RealMulMonotone(u, 0.00000000026, u, 0.00000000026);
  }

  lemma SquareNearOne(t: nat)
    requires t <= 2 * NEAR_ONE
    ensures RoundedMul(ONE - t, ONE - t) == ONE - 2 * t
  {
    var x := ONE - t;
    MulMonotone(t, 2 * NEAR_ONE, t, 2 * NEAR_ONE);
    assert x * x == DIGITS * (ONE - 2 * t) + t * t;
    DivUnique(x * x + HALF, DIGITS, ONE - 2 * t);
  }

  lemma SmallPowers(u: real, p2: real, p4: real)
    requires 0.0 <= u <= 0.001 && p2 == (1.0 - u) * (1.0 - u) && p4 == p2 * p2
    ensures p2 == 1.0 - 2.0 * u + u * u
    ensures 1.0 - 4.0 * u <= p4 <= 1.0 - 4.0 * u + 6.0 * (u * u)
  {
    var s := u * u;
    assert p2 == 1.0 - 2.0 * u + s;
    assert p4 == 1.0 - 4.0 * u + 6.0 * s - 4.0 * (u * s) + s * s;
    assert 0.0 <= s && 0.0 <= u * s <= 0.001 * s && s * s == u * (u * s) && 0.0 <= u * (u * s) <= u * s;
  }

  /** With exponents from four on, the slope applies after the first two squarings. */
  lemma {:induction false} NearOneError(t: nat, n: nat)
    requires t <= NEAR_ONE && n >= 4
    ensures Near(PowValue(ONE - t, n), Exact(ONE - t, n), SLOPE * n as real + 1.0)
  {
    var b, x1, x2 := ONE - t, ONE - 2 * t, ONE - 4 * t;
    FirstSquares(t);
    RoundedMulUnit(b);
    RoundedMulUnit(x1);
    assert RealPower(Real(b), 1) == Real(b);
    assert Near(b, Exact(b, 1), 0.0) && Near(ONE, Exact(b, 0), 0.0);
    Combine(b, x1, b, 2, 1, 0.0676, 0.0);
    var y1, j1 := if n % 2 == 1 then b else ONE, n % 2;
    var y2, j2 := if n / 2 % 2 == 1 then RoundedMul(x1, y1) else y1, if n / 2 % 2 == 1 then 2 + j1 else j1;
    assert PowLoop(b, ONE, n) == PowLoop(x1, y1, n / 2) == PowLoop(x2, y2, n / 2 / 2);
    assert Near(y2, Exact(b, j2), SLOPE * j2 as real + 1.0);
    SlopeLoop(b, x2, y2, n / 2 / 2, 4, j2);
    assert 4 * (n / 2 / 2) + j2 == n;
  }

  // ---------------------------------------------------------------- all other bases

  /** Bernoulli's inequality for a decaying power. */
  lemma {:induction false} Bernoulli(u: real, m: nat)
    requires 0.0 <= u <= 1.0
    ensures 0.0 <= RealPower(1.0 - u, m) && RealPower(1.0 - u, m) * (1.0 + m as real * u) <= 1.0
  {
    if m > 0 {
      Bernoulli(u, m - 1);
      RealPowerUnit(1.0 - u, m);
      var p, l := RealPower(1.0 - u, m - 1), (m - 1) as real;
      var a, c := 1.0 + l * u, 1.0 + m as real * u;
      assert c == a + u;
      assert (1.0 - u) * c == a - u * (l * u) - u * u;
      assert u * (l * u) >= 0.0 && u * u >= 0.0;
      RealMulMonotone(p, p, 0.0, a - (1.0 - u) * c);
      assert ((1.0 - u) * p) * c == p * ((1.0 - u) * c);
    }
  }

  const P29: nat := 0x2000_0000

  /** After 2^29 steps, a base at least 2.6 * 10^-10 below 1.0 has lost more than an eighth. */
  lemma {:induction false} Decayed29(t: nat)
    requires NEAR_ONE <= t <= ONE
    ensures 0.0 <= Exact(ONE - t, P29) <= 0.8776 * DIGITS as real
  {
    var u := t as real / DIGITS as real;
    assert Real(ONE - t) == 1.0 - u;
    Bernoulli(u, P29);
    var p := RealPower(1.0 - u, P29);
    assert P29 as real * u >= 0.1395;
    RealMulMonotone(p, p, 1.1395, 1.0 + P29 as real * u);
    assert p * 1.1395 <= 1.0;
  }

  /** Runs `steps` rounds of the loop, keeping the error bound of PowAccuracy. */
  lemma {:induction false} Rounds(b: Decimal, x: nat, y: nat, n: nat, k: nat, j: nat, steps: nat)
      returns (x': nat, y': nat, n': nat, k': nat, j': nat)
    requires b <= ONE && x <= ONE && y <= ONE && j < k && n >= Power(2, steps)
    requires Near(x, Exact(b, k), Drift(k)) && Near(y, Exact(b, j), Drift(j))
    ensures Power(2, steps) > 0 && n' == n / Power(2, steps) >= 1 && k' == k * Power(2, steps)
    ensures PowLoop(x, y, n) == PowLoop(x', y', n') && k * n + j == k' * n' + j'
    ensures x' <= ONE && y' <= ONE && j' < k'
    ensures Near(x', Exact(b, k'), Drift(k')) && Near(y', Exact(b, j'), Drift(j'))
    decreases steps
  {
    if steps == 0 {
      x', y', n', k', j' := x, y, n, k, j;
    } else {
      PowerPositive(2, steps - 1);
      StepError(b, x, x, k, k);
      StepError(b, x, y, k, j);
      RoundedMulMonotone(x, x, x, ONE);
      RoundedMulMonotone(x, y, x, ONE);
      RoundedMulUnit(x);
      HalvedExponent(k, n);
      var odd := n % 2 == 1;
      x', y', n', k', j' := Rounds(b, RoundedMul(x, x), if odd then RoundedMul(x, y) else y, n / 2, k + k,
                                   if odd then k + j else j, steps - 1);
      TwiceThePower(k, n, Power(2, steps - 1));
    }
  }

  lemma TwiceThePower(k: nat, n: nat, half: nat)
    requires half > 0 && n >= 2 * half
    ensures (n / 2) / half == n / (2 * half) >= 1 && (k + k) * half == k * (2 * half)
  {
    DivDiv(n, 2, half);
    DivGalois(n, 2 * half, 1);
  }

  lemma {:induction false} PowerPositive(b: nat, n: nat)
    requires b > 0
    ensures Power(b, n) > 0
  {
    if n > 0 {
      PowerPositive(b, n - 1);
    }
  }

  /** A number, the exact value it stands for, their distance, and a bound on both. */
  predicate Bounded(x: nat, s: real, e: real, bound: nat) {
    Near(x, s, e) && 0.0 <= s <= bound as real && x <= bound
  }

  /** Each error shrinks by the other factor. */
  lemma DampedError(x: real, y: real, s: real, t: real, e: real, f: real, m: real, n: real)
    requires s - e <= x <= s + e && t - f <= y <= t + f && 0.0 <= x <= m && 0.0 <= t <= n
    ensures s * t - (e * n + f * m) <= x * y <= s * t + (e * n + f * m)
  {
    ScaledBound(x - s, e, t, n);
    ScaledBound(y - t, f, x, m);
    assert x * y - s * t == (x - s) * t + (y - t) * x;
  }

  lemma BoundedProduct(x: nat, y: nat, m: nat, n: nat, c: nat)
    requires x <= m && y <= n && m * n + DIGITS <= c * DIGITS
    ensures RoundedMul(x, y) <= c
  {
    MulMonotone(x, m, y, n);
    DivGalois(x * y + HALF, DIGITS, c + 1);
  }

  lemma BoundedExactProduct(s: real, t: real, m: nat, n: nat, c: nat, u: real)
    requires 0.0 <= s <= m as real && 0.0 <= t <= n as real && m * n + DIGITS <= c * DIGITS
    requires s * t == u * DIGITS as real
    ensures 0.0 <= u <= c as real
  {
    RealMulMonotone(s, m as real, t, n as real);
    assert (m * n) as real == m as real * n as real;
  }

  /** `g` and `c` are any error and bound that are large enough. */
  lemma DampedProduct(x: nat, y: nat, s: real, t: real, e: real, f: real, m: nat, n: nat, u: real, g: real, c: nat)
    requires Bounded(x, s, e, m) && Bounded(y, t, f, n) && s * t == u * DIGITS as real
    requires (e * n as real + f * m as real) / DIGITS as real + 0.5 <= g && m * n + DIGITS <= c * DIGITS
    ensures Bounded(RoundedMul(x, y), u, g, c)
  {
    DampedError(x as real, y as real, s, t, e, f, m as real, n as real);
    RoundedMulError(x, y);
    BoundedProduct(x, y, m, n, c);
    BoundedExactProduct(s, t, m, n, c, u);
  }

  lemma {:induction false} DampedStep(b: Decimal, x: nat, y: nat, k: nat, j: nat,
                                      e: real, f: real, m: nat, n: nat, g: real, c: nat)
    requires Bounded(x, Exact(b, k), e, m) && Bounded(y, Exact(b, j), f, n)
    requires (e * n as real + f * m as real) / DIGITS as real + 0.5 <= g && m * n + DIGITS <= c * DIGITS
    ensures Bounded(RoundedMul(x, y), Exact(b, k + j), g, c)
  {
    ExactAdd(b, k, j);
    DampedProduct(x, y, Exact(b, k), Exact(b, j), e, f, m, n, Exact(b, k + j), g, c);
  }

  const E28: real := 268_435_456.0
  const M0: nat := 878_000_000_000_000_000
  const M1: nat := 771_000_000_000_000_000
  const M2: nat := 594_500_000_000_000_000

  /** The last rounds, from 2^29 on: three to seven such steps are left. */
  lemma {:induction false} LastRounds(b: Decimal, x: nat, y: nat, n: nat, j: nat)
    requires 3 <= n <= 7
    requires Bounded(x, Exact(b, P29), E28, M0) && Bounded(y, Exact(b, j), E28, DIGITS)
    ensures Near(PowLoop(x, y, n), Exact(b, P29 * n + j), 3.72 * E28)
  {
    var x1 := RoundedMul(x, x);
    DampedStep(b, x, x, P29, P29, E28, E28, M0, M0, 1.757 * E28, M1);
    DampedStep(b, x, y, P29, j, E28, E28, M0, DIGITS, 1.879 * E28, 879_000_000_000_000_000);
    if n == 3 {
      LastRound(b, x1, RoundedMul(x, y), 2 * P29, P29 + j, 1.757 * E28, 1.879 * E28, M1, 879_000_000_000_000_000);
      assert PowLoop(x, y, 3) == PowLoop(x1, RoundedMul(x, y), 1);
    } else {
      var x2 := RoundedMul(x1, x1);
      DampedStep(b, x1, x1, 2 * P29, 2 * P29, 1.757 * E28, 1.757 * E28, M1, M1, 2.71 * E28, M2);
      DampedStep(b, x1, y, 2 * P29, j, 1.757 * E28, E28, M1, DIGITS, 2.529 * E28, 772_000_000_000_000_000);
      DampedStep(b, x1, RoundedMul(x, y), 2 * P29, P29 + j, 1.757 * E28, 1.879 * E28, M1, 879_000_000_000_000_000,
                 2.994 * E28, 678_000_000_000_000_000);
      FourOrMore(b, x, y, x1, x2, n, j);
    }
  }

  lemma {:induction false} FourOrMore(b: Decimal, x: nat, y: nat, x1: nat, x2: nat, n: nat, j: nat)
    requires 4 <= n <= 7 && x1 == RoundedMul(x, x) && x2 == RoundedMul(x1, x1)
    requires Bounded(y, Exact(b, j), E28, DIGITS) && Bounded(x2, Exact(b, 4 * P29), 2.71 * E28, M2)
    requires Bounded(RoundedMul(x, y), Exact(b, P29 + j), 1.879 * E28, 879_000_000_000_000_000)
    requires Bounded(RoundedMul(x1, y), Exact(b, 2 * P29 + j), 2.529 * E28, 772_000_000_000_000_000)
    requires Bounded(RoundedMul(x1, RoundedMul(x, y)), Exact(b, 2 * P29 + (P29 + j)),
                     2.994 * E28, 678_000_000_000_000_000)
    ensures Near(PowLoop(x, y, n), Exact(b, P29 * n + j), 3.72 * E28)
  {
    var xy := RoundedMul(x, y);
    if n == 4 {
      assert PowLoop(x, y, 4) == PowLoop(x1, y, 2) == PowLoop(x2, y, 1);
      LastRound(b, x2, y, 4 * P29, j, 2.71 * E28, E28, M2, DIGITS);
    } else if n == 5 {
      assert PowLoop(x, y, 5) == PowLoop(x1, xy, 2) == PowLoop(x2, xy, 1);
      LastRound(b, x2, xy, 4 * P29, P29 + j, 2.71 * E28, 1.879 * E28, M2, 879_000_000_000_000_000);
    } else if n == 6 {
      assert PowLoop(x, y, 6) == PowLoop(x1, y, 3) == PowLoop(x2, RoundedMul(x1, y), 1);
      LastRound(b, x2, RoundedMul(x1, y), 4 * P29, 2 * P29 + j, 2.71 * E28, 2.529 * E28, M2, 772_000_000_000_000_000);
    } else {
      assert PowLoop(x, y, 7) == PowLoop(x1, xy, 3) == PowLoop(x2, RoundedMul(x1, xy), 1);
      LastRound(b, x2, RoundedMul(x1, xy), 4 * P29, 2 * P29 + (P29 + j), 2.71 * E28, 2.994 * E28, M2,
                678_000_000_000_000_000);
    }
  }

  lemma {:induction false} LastRound(b: Decimal, x: nat, y: nat, k: nat, j: nat, e: real, f: real, m: nat, n: nat)
    requires Bounded(x, Exact(b, k), e, m) && Bounded(y, Exact(b, j), f, n) && m <= DIGITS && n <= DIGITS
    requires (e * n as real + f * m as real) / DIGITS as real + 0.5 <= 3.72 * E28
    ensures Near(PowLoop(x, y, 1), Exact(b, k + j), 3.72 * E28)
  {
    MulMonotone(m, DIGITS, n, DIGITS);
    DampedStep(b, x, y, k, j, e, f, m, n, 3.72 * E28, DIGITS + 1);
  }

  /** From 3 * 2^29 on, for bases away from 1.0. */
  lemma {:induction false} FarFromOneError(t: nat, n: nat)
    requires NEAR_ONE <= t <= ONE && 3 * P29 <= n <= MAX_EXPONENT
    ensures Near(PowValue(ONE - t, n), Exact(ONE - t, n), 3.72 * E28)
  {
    var b := ONE - t;
    Power29();
    assert RealPower(Real(b), 1) == Real(b);
    assert Near(b, Exact(b, 1), Drift(1)) && Near(ONE, Exact(b, 0), Drift(0));
    var x, y, m, k, j := Rounds(b, b, ONE, n, 1, 0, 29);
    Decayed29(t);
    ExactBounds(b, j);
    LastRounds(b, x, y, m, j);
  }

  lemma {:induction false} Power29()
    ensures Power(2, 29) == P29
  {
    assert Power(2, 7) == 128;
    PowerAdd(2, 7, 7);
    PowerAdd(2, 14, 14);
    PowerAdd(2, 1, 28);
  }

  // ---------------------------------------------------------------- the tolerance

  /** Within 10^-9 of the exact power, for every base up to 1.0 and every exponent `pow` accepts. */
  lemma {:induction false} PowWithinTolerance(b: Decimal, n: nat)
    requires b <= ONE && n <= MAX_EXPONENT
    ensures -TOLERANCE < PowValue(b, n) as real - Exact(b, n) < TOLERANCE
  {
    if n == 0 {
      assert Exact(b, 0) == DIGITS as real;
    } else if n <= 2_000_000_000 {
      PowError(b, n);
    } else if ONE - b <= NEAR_ONE {
      NearOneError(ONE - b, n);
    } else {
      FarFromOneError(ONE - b, n);
    }
  }
}
