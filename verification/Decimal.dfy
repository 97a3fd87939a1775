/**
 * 18-digit fixed-point arithmetic (packages/lib-base/src/Decimal.ts).
 *
 * A Decimal is its `_bigNumber`: an unbounded count of units of 10^-18, never negative.
 */
module Decimals {
  import opened Arithmetic
  import opened Wrappers

  type Decimal = nat

  const PRECISION: nat := 18
  const DIGITS: nat := 1_000_000_000_000_000_000
  const HALF: nat := 500_000_000_000_000_000
  const ONE: Decimal := DIGITS
  const ZERO: Decimal := 0
  // 2^256 - 1
  const INFINITY: Decimal := 0xffff_ffff_ffff_ffff_ffff_ffff_ffff_ffff_ffff_ffff_ffff_ffff_ffff_ffff_ffff_ffff
  const MAX_EXPONENT: nat := 0xffff_ffff

  lemma {:induction false} DigitsIsPow10()
    ensures Pow10(PRECISION) == DIGITS
  {
    assert Pow10(6) == 1_000_000;
    Pow10Add(6, 6);
    Pow10Add(12, 6);
  }

  /** The private constructor: throws on a negative number. */
  function New(n: int): Result<Decimal> {
    if n < 0 then Err(NegativeDecimal) else Ok(n)
  }

  function Sub(a: Decimal, b: Decimal): Result<Decimal> {
    New(a - b)
  }

  function Mul(a: Decimal, b: Decimal): Decimal {
    a * b / DIGITS
  }

  function Div(a: Decimal, b: Decimal): Decimal {
    if b == 0 then INFINITY else a * DIGITS / b
  }

  function DivCeil(a: Decimal, b: Decimal): Decimal {
    if b == 0 then INFINITY else (a * DIGITS + (b - 1)) / b
  }

  function MulDiv(a: Decimal, m: Decimal, d: Decimal): Decimal {
    if d == 0 then INFINITY else a * m / d
  }

  function Min(a: Decimal, b: Decimal): Decimal {
    if a < b then a else b
  }

  function RoundedMul(x: nat, y: nat): nat {
    (x * y + HALF) / DIGITS
  }

  // ---------------------------------------------------------------- mul, div, divCeil, mulDiv

  /** `_divCeil` is the least quotient whose product reaches the dividend. */
  lemma {:induction false} DivCeilIsLeast(a: Decimal, b: Decimal)
    requires b > 0
    ensures forall q: Decimal :: Mul(q, b) >= a <==> DivCeil(a, b) <= q
  {
    forall q: Decimal
      ensures Mul(q, b) >= a <==> DivCeil(a, b) <= q
    {
      DivGalois(q * b, DIGITS, a);
      DivGalois(a * DIGITS + (b - 1), b, q + 1);
      assert b * (q + 1) == q * b + b;
    }
  }

  /** `mul`, `div` and `mulDiv` truncate the exact result. */
  lemma Truncations(a: Decimal, b: Decimal, d: Decimal)
    ensures Mul(a, b) * DIGITS <= a * b < (Mul(a, b) + 1) * DIGITS
    ensures d > 0 ==> Div(a, d) * d <= a * DIGITS < (Div(a, d) + 1) * d
    ensures d > 0 ==> MulDiv(a, b, d) * d <= a * b < (MulDiv(a, b, d) + 1) * d
  {
    DivBounds(a * b, DIGITS);
    if d > 0 {
      TruncatedBy(a * DIGITS, d);
      TruncatedBy(a * b, d);
    }
  }

  lemma TruncatedBy(n: nat, d: nat)
    requires d > 0
    ensures n / d * d <= n < (n / d + 1) * d
  {
    DivBounds(n, d);
    assert (n / d + 1) * d == d * (n / d) + d;
  }

  /** Dividing by zero gives infinity. */
  lemma DivisionByZero(a: Decimal, m: Decimal)
    ensures Div(a, 0) == DivCeil(a, 0) == MulDiv(a, m, 0) == INFINITY
  {
  }

  /** Infinity is the largest number of 256 bits. */
  lemma {:induction false} InfinityIsLargest()
    ensures INFINITY + 1 == Power(2, 256)
  {
    assert Power(2, 8) == 256;
    Doubled(8, 0x100);
    Doubled(16, 0x1_0000);
    Doubled(32, 0x1_0000_0000);
    Doubled(64, 0x1_0000_0000_0000_0000);
    Doubled(128, 0x1_0000_0000_0000_0000_0000_0000_0000_0000);
  }

  lemma {:induction false} Doubled(n: nat, p: nat)
    requires Power(2, n) == p
    ensures Power(2, 2 * n) == p * p
  {
    PowerAdd(2, n, n);
  }

  /** Subtraction is exact, or fails where the difference would be negative. */
  lemma SubExact(a: Decimal, b: Decimal)
    ensures Sub(a, b).Ok? ==> Sub(a, b).value + b == a
    ensures Sub(a, b).Err? <==> a < b
    ensures a < b ==> Sub(a, b) == Err(NegativeDecimal)
  {
  }

  /** Dividing and multiplying back never gains, and loses less than `b / DIGITS + 1` units. */
  lemma {:induction false} MulOfDiv(a: Decimal, b: Decimal)
    requires b > 0
    ensures Mul(Div(a, b), b) <= a
    ensures (a - Mul(Div(a, b), b)) * DIGITS < b + DIGITS
  {
    var q := Div(a, b);
    DivBounds(a * DIGITS, b);
    assert b * q == q * b;
    DivBounds(q * b, DIGITS);
  }

  /** One truncation loses no more than two. */
  lemma {:induction false} MulDivAboveMulThenDiv(a: Decimal, m: Decimal, d: Decimal)
    ensures Div(Mul(a, m), d) <= MulDiv(a, m, d)
    ensures d > 0 ==> (MulDiv(a, m, d) - Div(Mul(a, m), d) - 1) * d < DIGITS
  {
    if d > 0 {
      DivBounds(a * m, DIGITS);
      var t := Mul(a, m) * DIGITS;
      DivMonotone(t, a * m, d);
      DivBounds(a * m, d);
      DivBounds(t, d);
      var p, q := MulDiv(a, m, d), Div(Mul(a, m), d);
      assert d * p <= a * m < t + DIGITS && t < d * q + d;
      assert (p - q - 1) * d == d * p - d * q - d;
    }
  }

  // ---------------------------------------------------------------- roundedMul

  /** The product rounded to the nearest unit, ties upwards. */
  lemma {:induction false} RoundedMulIsNearest(x: nat, y: nat)
    ensures 2 * x * y - DIGITS < 2 * DIGITS * RoundedMul(x, y) <= 2 * x * y + DIGITS
  {
    DivBounds(x * y + HALF, DIGITS);
  }

  lemma {:induction false} RoundedMulMonotone(x: nat, y: nat, x': nat, y': nat)
    requires x <= x' && y <= y'
    ensures RoundedMul(x, y) <= RoundedMul(x', y')
  {
    MulMonotone(x, x', y, y');
    DivMonotone(x * y + HALF, x' * y' + HALF, DIGITS);
  }

  lemma {:induction false} RoundedMulUnit(x: nat)
    ensures RoundedMul(x, ONE) == x == RoundedMul(ONE, x)
  {
    DivUnique(x * DIGITS + HALF, DIGITS, x);
  }

  lemma {:induction false} RoundedMulWhole(x: nat, m: nat)
    ensures RoundedMul(x, m * DIGITS) == x * m
  {
    assert x * (m * DIGITS) == DIGITS * (x * m);
    DivUnique(x * (m * DIGITS) + HALF, DIGITS, x * m);
  }

  // ---------------------------------------------------------------- pow

  /** What the loop of `pow` and the multiplication after it make of `x`, `y` and the exponent. */
  function PowLoop(x: nat, y: nat, n: nat): nat
    requires n >= 1
    decreases n
  {
    if n == 1 then RoundedMul(x, y)
    else PowLoop(RoundedMul(x, x), if n % 2 == 1 then RoundedMul(x, y) else y, n / 2)
  }

  function PowValue(b: Decimal, n: nat): Decimal {
    if n == 0 then ONE else PowLoop(b, ONE, n)
  }

  /** Operands of JavaScript's bitwise operators are taken modulo 2^32. */
  function ToUint32(n: int): nat {
    n % 0x1_0000_0000
  }

  lemma {:induction false} PowLoopUnfolds(x: nat, y: nat, n: nat)
    requires n > 1
    ensures PowLoop(x, y, n) == PowLoop(RoundedMul(x, x), if n % 2 == 1 then RoundedMul(x, y) else y, n / 2)
  {
  }

  /** `pow`, with its two assertions about the exponent (every `int` passes the first). */
  method Pow(b: Decimal, exponent: int) returns (r: Result<Decimal>)
    ensures 0 <= exponent < 0x1_0000_0000 ==> r == Ok(PowValue(b, exponent))
    ensures !(0 <= exponent < 0x1_0000_0000) ==> r == Err(AssertionFailed)
  {
    if !(0 <= exponent <= MAX_EXPONENT) {
      return Err(AssertionFailed);
    }
    if exponent == 0 {
      return Ok(ONE);
    }
    if exponent == 1 {
      RoundedMulUnit(b);
      return Ok(b);
    }
    var x, y, n := b, DIGITS, exponent;
    while n > 1
      invariant 1 <= n <= MAX_EXPONENT
      invariant PowLoop(x, y, n) == PowValue(b, exponent)
    {
      assert ToUint32(n) == n;
      PowLoopUnfolds(x, y, n);
      if ToUint32(n) % 2 == 1 {
        y := RoundedMul(x, y);
      }
      x := RoundedMul(x, x);
      n := ToUint32(n) / 2;
    }
    r := Ok(RoundedMul(x, y));
  }

  lemma {:induction false} PowLoopMonotone(x: nat, y: nat, x': nat, y': nat, n: nat)
    requires n >= 1 && x <= x' && y <= y'
    ensures PowLoop(x, y, n) <= PowLoop(x', y', n)
    decreases n
  {
    RoundedMulMonotone(x, y, x', y');
    if n > 1 {
      RoundedMulMonotone(x, x, x', x');
      PowLoopMonotone(RoundedMul(x, x), if n % 2 == 1 then RoundedMul(x, y) else y,
                      RoundedMul(x', x'), if n % 2 == 1 then RoundedMul(x', y') else y', n / 2);
    }
  }

  lemma {:induction false} PowMonotoneInBase(b: Decimal, b': Decimal, n: nat)
    requires b <= b'
    ensures PowValue(b, n) <= PowValue(b', n)
  {
    if n > 0 {
      PowLoopMonotone(b, ONE, b', ONE, n);
    }
  }

  /**
   * The carry argument. The run on `n + 1` keeps the accumulator at 1.0 for as long as the run on
   * `n` meets one bits; meanwhile the square stays on its side of the accumulator `z` of that run.
   */
  lemma {:induction false} PowLoopCarry(x: nat, z: nat, n: nat)
    requires n >= 1
    ensures x <= z && x <= ONE ==> PowLoop(x, ONE, n + 1) <= PowLoop(x, z, n)
    ensures z <= x && ONE <= x ==> PowLoop(x, z, n) <= PowLoop(x, ONE, n + 1)
    decreases n
  {
    var xx := RoundedMul(x, x);
    RoundedMulUnit(x);
    RoundedMulUnit(xx);
    if x <= z && x <= ONE {
      RoundedMulMonotone(x, x, x, z);
      RoundedMulMonotone(x, x, ONE, x);
      if n % 2 == 1 && n > 1 {
        PowLoopCarry(xx, RoundedMul(x, z), n / 2);
      } else if n > 1 {
        PowLoopMonotone(xx, x, xx, z, n / 2);
      } else {
        assert PowLoop(x, ONE, 2) == PowLoop(xx, ONE, 1);
      }
    }
    if z <= x && ONE <= x {
      RoundedMulMonotone(x, z, x, x);
      RoundedMulMonotone(ONE, x, x, x);
      if n % 2 == 1 && n > 1 {
        PowLoopCarry(xx, RoundedMul(x, z), n / 2);
      } else if n > 1 {
        PowLoopMonotone(xx, z, xx, x, n / 2);
      } else {
        assert PowLoop(x, ONE, 2) == PowLoop(xx, ONE, 1);
      }
    }
  }

  /** Powers of a base up to 1.0 never rise with the exponent; of a base from 1.0 they never fall. */
  lemma {:induction false} PowMonotoneInExponent(b: Decimal, m: nat, n: nat)
    requires m <= n
    ensures b <= ONE ==> PowValue(b, n) <= PowValue(b, m)
    ensures b >= ONE ==> PowValue(b, m) <= PowValue(b, n)
    decreases n - m
  {
    if m < n {
      if m == 0 {
        RoundedMulUnit(b);
      } else {
        PowLoopCarry(b, ONE, m);
      }
      PowMonotoneInExponent(b, m + 1, n);
    }
  }

  lemma {:induction false} PowLoopWhole(a: nat, c: nat, n: nat)
    requires n >= 1
    ensures PowLoop(a * DIGITS, c * DIGITS, n) == (c * Power(a, n)) * DIGITS
    decreases n
  {
    RoundedMulWhole(a * DIGITS, c);
    assert a * DIGITS * c == (c * a) * DIGITS;
    if n == 1 {
      assert Power(a, 1) == a;
    } else {
      RoundedMulWhole(a * DIGITS, a);
      assert a * DIGITS * a == (a * a) * DIGITS;
      PowerHalves(a, c, n);
      PowLoopWhole(a * a, if n % 2 == 1 then c * a else c, n / 2);
    }
  }

  lemma {:induction false} PowerHalves(a: nat, c: nat, n: nat)
    ensures c * Power(a, n) == (if n % 2 == 1 then c * a else c) * Power(a * a, n / 2)
  {
    PowerSquare(a, n / 2);
    if n % 2 == 1 {
      assert n - 1 == 2 * (n / 2);
      assert c * (a * Power(a, n - 1)) == (c * a) * Power(a, n - 1);
    }
  }

  lemma {:induction false} PowerSquare(a: nat, k: nat)
    ensures Power(a * a, k) == Power(a, 2 * k)
  {
    if k > 0 {
      PowerSquare(a, k - 1);
      assert Power(a, 2 * k) == a * Power(a, 2 * k - 1) == a * (a * Power(a, 2 * k - 2));
      assert (a * a) * Power(a, 2 * k - 2) == a * (a * Power(a, 2 * k - 2));
    }
  }

  /** Powers of whole numbers are exact. */
  lemma {:induction false} PowWhole(a: nat, n: nat)
    ensures PowValue(a * DIGITS, n) == Power(a, n) * DIGITS
  {
    if n > 0 {
      PowLoopWhole(a, 1, n);
    }
  }
}
