/** Facts about integer division and powers that the solver does not find by itself. */
module Arithmetic {

  /** `x` and `y` are at most `e` apart. */
  predicate Within(x: real, y: real, e: real) {
    y - e <= x <= y + e
  }

  lemma DivBounds(a: int, d: int)
    requires d > 0
    ensures d * (a / d) <= a < d * (a / d) + d
  {
  }

  lemma DivUnique(a: int, d: int, q: int)
    requires d > 0 && d * q <= a < d * q + d
    ensures a / d == q
  {
    DivBounds(a, d);
    var p := a / d;
    assert p < q ==> d * (p + 1) <= d * q;
    assert q < p ==> d * (q + 1) <= d * p;
  }

  /** `q <= a / d` exactly when `d * q <= a`. */
  lemma DivGalois(a: int, d: int, q: int)
    requires d > 0
    ensures q <= a / d <==> d * q <= a
  {
    DivBounds(a, d);
    var p := a / d;
    if q <= p {
      assert d * q <= d * p;
    } else {
      assert d * (p + 1) <= d * q;
    }
  }

  lemma DivMonotone(a: int, b: int, d: int)
    requires d > 0 && a <= b
    ensures a / d <= b / d
  {
    DivBounds(a, d);
    DivGalois(b, d, a / d);
  }

  lemma DivCancel(a: int, d: int)
    requires d > 0
    ensures (d * a) / d == a && (a * d) / d == a && (d * a) % d == 0
  {
    var n := d * a;
    DivUnique(n, d, a);
    assert n == d * (n / d) + n % d;
    assert a * d == n;
  }

  lemma DivAddMultiple(a: int, k: int, d: int)
    requires d > 0
    ensures (a + k * d) / d == a / d + k
    ensures (a + k * d) % d == a % d
  {
    DivBounds(a, d);
    assert d * (a / d + k) == d * (a / d) + k * d;
    DivUnique(a + k * d, d, a / d + k);
  }

  lemma MulLeft(b: int, x: int, y: int)
    requires b >= 0 && x <= y
    ensures b * x <= b * y
  {
  }

  /** Truncating twice is truncating once. */
  lemma DivDiv(a: int, b: int, c: int)
    requires b > 0 && c > 0
    ensures b * c > 0 && (a / b) / c == a / (b * c)
  {
    var m := a / b;
    var q := m / c;
    DivBounds(a, b);
    DivBounds(m, c);
    var cq := c * q;
    MulLeft(b, cq, m);
    MulLeft(b, m + 1, cq + c);
    var bc := b * c;
    assert b * cq == bc * q;
    assert b * (cq + c) == bc * q + bc;
    assert b * (m + 1) == b * m + b;
    DivUnique(a, bc, q);
  }

  /** Scaling before truncating keeps the scaled remainder. */
  lemma DivThenScale(u: int, p: int, q: int)
    requires p > 0 && q >= 0
    ensures (u * q) / p == (u / p) * q + ((u % p) * q) / p
    ensures ((u % p) * q) / p >= 0
  {
    var d, r := u / p, u % p;
    assert u == d * p + r;
    assert u * q == r * q + (d * q) * p;
    DivAddMultiple(r * q, d * q, p);
    DivGalois(r * q, p, 0);
    assert r * q >= 0;
  }

  /** Cancelling a common factor before truncating. */
  lemma DivScale(a: int, d: int, k: int)
    requires d > 0 && k > 0
    ensures k * d > 0 && (k * a) / (k * d) == a / d
  {
    DivCancel(a, k);
    DivDiv(k * a, k, d);
  }

  /** Dividing a two-part number by the weight of its upper part, also after scaling by `d`. */
  lemma DivSplit(u: int, x: int, w: int, d: int)
    requires 0 <= x < w && d > 0
    ensures (u * w + x) / w == u && (u * w + x) % w == x
    ensures d * w > 0 && (d * (u * w + x)) / (d * w) == u && (d * (u * w + x)) % (d * w) == d * x
  {
    assert u * w == w * u;
    DivUnique(u * w + x, w, u);
    DivScale(u * w + x, w, d);
    assert d * (u * w + x) == (d * w) * u + d * x;
  }

  lemma DivExact(a: int, p: int, q: int, d: int)
    requires p > 0 && d == p * q
    ensures (a * d) / p == a * q && (a * d) % p == 0
  {
    assert a * d == p * (a * q);
    DivCancel(a * q, p);
  }

  lemma MulMonotone(a: int, b: int, c: int, d: int)
    requires 0 <= a <= b && 0 <= c <= d
    ensures 0 <= a * c <= b * d
  {
    assert a * c <= b * c <= b * d;
  }

  function Power(b: nat, n: nat): nat {
    if n == 0 then 1 else b * Power(b, n - 1)
  }

  lemma {:induction false} PowerAdd(b: nat, m: nat, n: nat)
    ensures Power(b, m + n) == Power(b, m) * Power(b, n)
  {
    if m == 0 {
    } else {
      PowerAdd(b, m - 1, n);
      assert b * (Power(b, m - 1) * Power(b, n)) == (b * Power(b, m - 1)) * Power(b, n);
    }
  }

  function Pow10(n: nat): (p: nat)
    ensures p > 0
  {
    if n == 0 then 1 else 10 * Pow10(n - 1)
  }

  lemma {:induction false} Pow10Add(m: nat, n: nat)
    ensures Pow10(m + n) == Pow10(m) * Pow10(n)
  {
    if m == 0 {
    } else {
      Pow10Add(m - 1, n);
    }
  }

  lemma {:induction false} Pow10Monotone(m: nat, n: nat)
    requires m <= n
    ensures Pow10(m) <= Pow10(n)
    decreases n - m
  {
    if m < n {
      Pow10Monotone(m + 1, n);
    }
  }

  lemma Pow10Order(m: nat, n: nat)
    ensures Pow10(m) < Pow10(n) ==> m < n
  {
    if n <= m {
      Pow10Monotone(n, m);
    }
  }

  /** Powers of a real number; used for the exact, unrounded powers. */
  function RealPower(b: real, n: nat): real {
    if n == 0 then 1.0 else b * RealPower(b, n - 1)
  }

  lemma {:induction false} RealPowerAdd(b: real, m: nat, n: nat)
    ensures RealPower(b, m + n) == RealPower(b, m) * RealPower(b, n)
  {
    if m == 0 {
    } else {
      RealPowerAdd(b, m - 1, n);
      RealMulAssoc(b, RealPower(b, m - 1), RealPower(b, n));
    }
  }

  lemma RealMulAssoc(a: real, b: real, c: real)
    ensures a * (b * c) == (a * b) * c
  {
  }

  lemma RealMulMonotone(a: real, b: real, c: real, d: real)
    requires 0.0 <= a <= b && 0.0 <= c <= d
    ensures 0.0 <= a * c <= b * d
  {
    assert a * c <= b * c;
    assert b * c <= b * d;
  }

  lemma {:induction false} RealPowerUnit(b: real, n: nat)
    requires 0.0 <= b <= 1.0
    ensures 0.0 <= RealPower(b, n) <= 1.0
  {
    if n > 0 {
      RealPowerUnit(b, n - 1);
      RealMulMonotone(b, 1.0, RealPower(b, n - 1), 1.0);
    }
  }

  lemma {:induction false} RealPowerNonNegative(b: real, n: nat)
    requires b >= 0.0
    ensures RealPower(b, n) >= 0.0
  {
    if n > 0 {
      RealPowerNonNegative(b, n - 1);
      RealMulMonotone(0.0, b, 0.0, RealPower(b, n - 1));
    }
  }

  /** `f(j) + ... + f(i - 1)`. */
  function Sum(f: nat -> real, j: nat, i: nat): real
    requires j <= i
  {
    if i == j then 0.0 else Sum(f, j, i - 1) + f(i - 1)
  }
}
