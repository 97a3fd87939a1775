/** Reading and printing Decimals (packages/lib-base/src/Decimal.ts, lines 13-14, 61-174). */
module DecimalText {
  import opened Arithmetic
  import opened Decimals
  import opened Digits
  import opened Wrappers

  // ---------------------------------------------------------------- the accepted format

  /** Where `c` first occurs in `s`, or the length of `s`. */
  function IndexOf(s: string, c: char): (i: nat)
    ensures i <= |s| && (forall k :: 0 <= k < i ==> s[k] != c) && (i < |s| ==> s[i] == c)
  {
    if s == "" || s[0] == c then 0 else IndexOf(s[1..], c) + 1
  }

  function Before(s: string, c: char): string {
    s[..IndexOf(s, c)]
  }

  function After(s: string, c: char): string {
    var i := IndexOf(s, c);
    if i < |s| then s[i + 1..] else ""
  }

  lemma {:induction false} IndexOfSplit(a: string, c: char, b: string)
    requires c !in a
    ensures IndexOf(a + [c] + b, c) == |a|
    ensures Before(a + [c] + b, c) == a && After(a + [c] + b, c) == b
  {
    var s := a + [c] + b;
    assert s[|a|] == c;
    assert forall k :: 0 <= k < |a| ==> s[k] == a[k];
  }

  lemma {:induction false} IndexOfMissing(s: string, c: char)
    requires c !in s
    ensures IndexOf(s, c) == |s| && Before(s, c) == s && After(s, c) == ""
  {
  }

  predicate IsPlain(s: string) {
    AllDigits(Before(s, '.')) && AllDigits(After(s, '.'))
  }

  function Unsigned(e: string): string {
    if e != "" && (e[0] == '+' || e[0] == '-') then e[1..] else e
  }

  /** `stringRepresentationFormat`. */
  predicate Matches(s: string) {
    && IsPlain(Before(s, 'e'))
    && ('e' in s ==> Unsigned(After(s, 'e')) != "" && AllDigits(Unsigned(After(s, 'e'))))
  }

  /** /e[-+]?[0-9]+/ */
  predicate IsExponentPart(c: string) {
    && |c| >= 2 && c[0] == 'e'
    && (AllDigits(c[1..]) || ((c[1] == '-' || c[1] == '+') && |c| >= 3 && AllDigits(c[2..])))
  }

  /** A way to match /^[0-9]*(\.[0-9]*)?(e[-+]?[0-9]+)?$/ with the groups `b` and `c`. */
  ghost predicate RegexGroups(s: string, a: string, b: string, c: string) {
    && s == a + b + c && AllDigits(a)
    && (b != "" ==> b[0] == '.' && AllDigits(b[1..]))
    && (c != "" ==> IsExponentPart(c))
  }

  lemma UnsignedDigits(e: string)
    ensures IsExponentPart("e" + e) <==> Unsigned(e) != "" && AllDigits(Unsigned(e))
  {
    var c := "e" + e;
    assert c[1..] == e;
    if |c| >= 2 {
      assert c[2..] == e[1..];
      assert IsDigit(e[0]) ==> e[0] != '-' && e[0] != '+';
      assert AllDigits(e) ==> IsDigit(e[0]);
    }
  }

  lemma {:induction false} FormatIsRegex(s: string)
    ensures Matches(s) <==> exists a, b, c :: RegexGroups(s, a, b, c)
  {
    if Matches(s) {
      var a, b, c := GroupsOf(s);
    }
    forall a, b, c | RegexGroups(s, a, b, c)
      ensures Matches(s)
    {
      GroupsMatch(s, a, b, c);
    }
  }

  lemma {:induction false} GroupsOf(s: string) returns (a: string, b: string, c: string)
    requires Matches(s)
    ensures RegexGroups(s, a, b, c)
  {
    var t := Before(s, 'e');
    a, b, c := Before(t, '.'), From(t, '.'), From(s, 'e');
    FromSplits(s, 'e');
    FromSplits(t, '.');
    assert s == t + c == a + b + c;
    assert b != "" ==> b[1..] == After(t, '.');
    if c != "" {
      assert c == "e" + After(s, 'e');
      UnsignedDigits(After(s, 'e'));
    }
  }

  /** The rest of `s` from the first `c` on. */
  function From(s: string, c: char): string {
    s[IndexOf(s, c)..]
  }

  lemma {:induction false} FromSplits(s: string, c: char)
    ensures s == Before(s, c) + From(s, c)
    ensures From(s, c) == if c in s then [c] + After(s, c) else ""
  {
    var i := IndexOf(s, c);
    if i < |s| {
      assert s[i] in s;
    }
  }

  lemma {:induction false} DigitsHave(a: string, c: char)
    requires AllDigits(a) && !IsDigit(c)
    ensures c !in a
  {
  }

  lemma {:induction false} GroupsMatch(s: string, a: string, b: string, c: string)
    requires RegexGroups(s, a, b, c)
    ensures Matches(s) && Before(s, 'e') == a + b
    ensures c == "" ==> 'e' !in s
    ensures c != "" ==> 'e' in s && After(s, 'e') == c[1..]
    ensures Before(a + b, '.') == a
    ensures b != "" ==> '.' in a + b && After(a + b, '.') == b[1..]
    ensures b == "" ==> '.' !in a + b && After(a + b, '.') == ""
  {
    if c != "" {
      assert c == "e" + c[1..];
      UnsignedDigits(c[1..]);
    }
    DigitsHave(a, 'e');
    DigitsHave(a, '.');
    if b == "" {
      assert a + b == a;
      IndexOfMissing(a, '.');
    } else {
      DigitsHave(b[1..], 'e');
      assert a + b == a + ['.'] + b[1..];
      IndexOfSplit(a, '.', b[1..]);
    }
    assert 'e' !in a + b;
    if c == "" {
      assert s == a + b;
      IndexOfMissing(s, 'e');
    } else {
      assert s == (a + b) + ['e'] + c[1..];
      assert s[|a + b|] == 'e';
      IndexOfSplit(a + b, 'e', c[1..]);
    }
  }

  // ---------------------------------------------------------------- _fromString

  /** The branches of `_fromString` for a representation without an exponent. */
  function FromPlain(s: string): Decimal
    requires IsPlain(s) && s != ""
  {
    if '.' !in s then
      assert Before(s, '.') == s;
      Value(s) * DIGITS
    else
      var characteristic, mantissa := Before(s, '.'), After(s, '.');
      var padded := if |mantissa| < PRECISION then mantissa + Zeros(PRECISION - |mantissa|)
                    else mantissa[..PRECISION];
      Value(characteristic) * DIGITS + Value(padded)
  }

  /** Division or multiplication by a power of ten, as the sign of the exponent says. */
  function Scale(c: nat, negative: bool, k: nat): nat {
    if negative then (DivGalois(c, Pow10(k), 0); c / Pow10(k)) else c * Pow10(k)
  }

  function FromString(s: string): Result<Decimal>
    decreases |s|
  {
    if s == "" || !Matches(s) then
      Err(BadDecimalFormat)
    else if 'e' in s then
      var coefficient, exponent := Before(s, 'e'), After(s, 'e');
      match FromString(coefficient)
      case Err(e) => Err(e)
      case Ok(c) => Ok(Scale(c, exponent[0] == '-', Value(Unsigned(exponent))))
    else
      assert Before(s, 'e') == s;
      Ok(FromPlain(s))
  }

  // ---------------------------------------------------------------- what a representation denotes

  /** The digits of the coefficient, before and after the point. */
  function IntDigits(s: string): string {
    Before(Before(s, 'e'), '.')
  }

  function FracDigits(s: string): string {
    After(Before(s, 'e'), '.')
  }

  function Exponent(s: string): int
    requires Matches(s)
  {
    if 'e' !in s then 0
    else
      var e := After(s, 'e');
      var k: int := Value(if e[0] == '-' || e[0] == '+' then e[1..] else e);
      if e[0] == '-' then -k else k
  }

  /** The rational a representation writes, `Numerator / Denominator`. */
  function Numerator(s: string): nat
    requires Matches(s)
  {
    var e := Exponent(s);
    var v := Value(IntDigits(s) + FracDigits(s));
    if e > 0 then v * Pow10(e) else v
  }

  function Denominator(s: string): (d: nat)
    requires Matches(s)
    ensures d > 0
  {
    var e := Exponent(s);
    Pow10(|FracDigits(s)| + (if e < 0 then -e else 0))
  }

  /** The rational `n / d` truncated to 18 places. */
  function Truncated(n: nat, d: nat): Decimal
    requires d > 0
  {
    DivGalois(n * DIGITS, d, 0);
    n * DIGITS / d
  }

  /** What that truncation cuts off, as a count of units times `d`. */
  function CutOff(n: nat, d: nat): nat
    requires d > 0
  {
    n * DIGITS % d
  }

  lemma {:induction false} FromPlainIsFloor(s: string)
    requires IsPlain(s) && s != ""
    ensures FromPlain(s) == Truncated(Value(Before(s, '.') + After(s, '.')), Pow10(|After(s, '.')|))
  {
    var a, f := Before(s, '.'), After(s, '.');
    ValueConcat(a, f);
    if '.' !in s {
      IndexOfMissing(s, '.');
      assert a + f == s;
    } else if |f| < PRECISION {
      ShortMantissa(Value(a + f), Value(a), f);
    } else {
      LongMantissa(a, f);
    }
  }

  lemma {:induction false} ShortMantissa(n: nat, v: nat, f: string)
    requires AllDigits(f) && |f| <= PRECISION && n == v * Pow10(|f|) + Value(f)
    ensures Truncated(n, Pow10(|f|)) == v * DIGITS + Value(f + Zeros(PRECISION - |f|))
  {
    var k := PRECISION - |f|;
    RightPadded(f, k);
    DigitsIsPow10();
    Pow10Add(|f|, k);
    DivExactSum(n, v, Value(f), Pow10(|f|), Pow10(k), DIGITS);
  }

  lemma {:induction false} DivExactSum(n: nat, v: nat, x: nat, p: nat, q: nat, d: nat)
    requires p > 0 && d == p * q && n == v * p + x
    ensures n * d / p == v * d + x * q
  {
    DivExact(n, p, q, d);
    assert (v * p + x) * q == v * (p * q) + x * q;
  }

  /** Cutting the mantissa after 18 digits, and what that leaves behind. */
  lemma {:induction false} LongMantissa(a: string, f: string)
    requires AllDigits(a) && AllDigits(f) && |f| >= PRECISION
    ensures Truncated(Value(a + f), Pow10(|f|)) == Value(a) * DIGITS + Value(f[..PRECISION])
    ensures CutOff(Value(a + f), Pow10(|f|)) == DIGITS * Value(f[PRECISION..])
  {
    var g, h := f[..PRECISION], f[PRECISION..];
    assert a + f == (a + g) + h;
    ValueConcat(a, g);
    ValueConcat(a + g, h);
    ValueBound(h);
    DigitsIsPow10();
    Pow10Add(PRECISION, |h|);
    TruncatedSplit(Value(a + f), Value(a + g), Value(h), Pow10(|h|));
  }

  lemma {:induction false} TruncatedSplit(n: nat, u: nat, x: nat, w: nat)
    requires x < w && n == u * w + x
    ensures DIGITS * w > 0 && Truncated(n, DIGITS * w) == u && CutOff(n, DIGITS * w) == DIGITS * x
  {
    DivSplit(u, x, w, DIGITS);
  }

  /** Exactly the representations in the format with something before the exponent are accepted. */
  lemma {:induction false} Accepted(s: string)
    ensures FromString(s).Ok? <==> Matches(s) && Before(s, 'e') != ""
    ensures FromString(s).Err? ==> FromString(s) == Err(BadDecimalFormat)
  {
    var c := Before(s, 'e');
    if s != "" && Matches(s) {
      if 'e' in s {
        IndexOfMissing(c, 'e');
        assert |c| < |s|;
      } else {
        IndexOfMissing(s, 'e');
      }
    }
  }

  lemma {:induction false} FromStringCoefficient(s: string)
    requires FromString(s).Ok?
    ensures var v := Value(IntDigits(s) + FracDigits(s));
            FromString(Before(s, 'e')) == Ok(Truncated(v, Pow10(|FracDigits(s)|)))
  {
    Accepted(s);
    var c := Before(s, 'e');
    IndexOfMissing(c, 'e');
    FromPlainIsFloor(c);
  }

  /** What the exponent makes of the coefficient `t`. */
  lemma {:induction false} FromStringScaled(s: string, t: nat)
    requires FromString(s).Ok? && FromString(Before(s, 'e')) == Ok(t)
    ensures Matches(s)
    ensures var e := Exponent(s);
            FromString(s) == Ok(if e > 0 then Scale(t, false, e) else Scale(t, true, -e))
  {
    Accepted(s);
    assert Pow10(0) == 1;
    if 'e' !in s {
      IndexOfMissing(s, 'e');
    } else {
      var exponent := After(s, 'e');
      assert FromString(s) == Ok(Scale(t, exponent[0] == '-', Value(Unsigned(exponent))));
    }
  }

  /**
   * Without a positive exponent the result is the denoted number truncated to 18 places, although
   * a negative exponent makes the code truncate twice.
   */
  lemma {:induction false} FromStringIsFloor(s: string)
    requires FromString(s).Ok? && Exponent(s) <= 0
    ensures FromString(s) == Ok(Truncated(Numerator(s), Denominator(s)))
  {
    FromStringCoefficient(s);
    var v, m, k := Value(IntDigits(s) + FracDigits(s)), |FracDigits(s)|, -Exponent(s);
    var t := Truncated(v, Pow10(m));
    FromStringScaled(s, t);
    FractionOf(s, v, m, k);
    ScaledTwice(s, t, v, m, k);
  }

  lemma {:induction false} ScaledTwice(s: string, t: nat, v: nat, m: nat, k: nat)
    requires Matches(s) && FromString(s) == Ok(Scale(t, true, k)) && t == Truncated(v, Pow10(m))
    requires Numerator(s) == v && Denominator(s) == Pow10(m + k)
    ensures FromString(s) == Ok(Truncated(Numerator(s), Denominator(s)))
  {
    TruncatedTwice(v, m, k);
  }

  lemma FractionOf(s: string, v: nat, m: nat, k: int)
    requires Matches(s) && k == -Exponent(s) && k >= 0 && m == |FracDigits(s)|
    requires AllDigits(IntDigits(s) + FracDigits(s)) && v == Value(IntDigits(s) + FracDigits(s))
    ensures Numerator(s) == v && Denominator(s) == Pow10(m + k)
  {
  }

  lemma {:induction false} TruncatedTwice(v: nat, m: nat, k: nat)
    ensures Scale(Truncated(v, Pow10(m)), true, k) == Truncated(v, Pow10(m + k))
  {
    Pow10Add(m, k);
    DivDiv(v * DIGITS, Pow10(m), Pow10(k));
  }

  /** The fractional digits beyond the 18th that an exponent of `e` would bring back. */
  function Lost(f: string, e: nat): string {
    if |f| <= PRECISION then ""
    else if |f| <= PRECISION + e then f[PRECISION..]
    else f[PRECISION..PRECISION + e]
  }

  /**
   * With a positive exponent the coefficient is truncated first, so the result is never above the
   * denoted number, and it is its truncation exactly when the digits cut off too early are zeros.
   */
  lemma {:induction false} FromStringPositiveExponent(s: string)
    requires FromString(s).Ok? && Exponent(s) > 0
    ensures AllDigits(Lost(FracDigits(s), Exponent(s)))
    ensures FromString(s).value <= Truncated(Numerator(s), Denominator(s))
    ensures FromString(s).value == Truncated(Numerator(s), Denominator(s))
            <==> Value(Lost(FracDigits(s), Exponent(s))) == 0
  {
    FromStringCoefficient(s);
    var a, f, e := IntDigits(s), FracDigits(s), Exponent(s);
    FromStringScaled(s, Truncated(Value(a + f), Pow10(|f|)));
    var p, q := Pow10(|f|), Pow10(e);
    TruncateThenScale(Value(a + f), p, q);
    CutOffZero(a, f, e);
  }

  /** Truncating before scaling loses the scaled remainder. */
  lemma {:induction false} TruncateThenScale(n: nat, p: nat, q: nat)
    requires p > 0
    ensures Truncated(n * q, p) == Truncated(n, p) * q + (CutOff(n, p) * q) / p
    ensures (CutOff(n, p) * q) / p >= 0
  {
    assert (n * q) * DIGITS == (n * DIGITS) * q;
    DivThenScale(n * DIGITS, p, q);
  }

  lemma {:induction false} CutOffZero(a: string, f: string, e: nat)
    requires AllDigits(a) && AllDigits(f)
    ensures AllDigits(Lost(f, e))
    ensures (CutOff(Value(a + f), Pow10(|f|)) * Pow10(e)) / Pow10(|f|) == 0 <==> Value(Lost(f, e)) == 0
  {
    if |f| <= PRECISION {
      CutOffShort(Value(a + f), |f|);
      DivUnique(0, Pow10(|f|), 0);
    } else {
      var h := f[PRECISION..];
      LongMantissa(a, f);
      LeadingDigitsZero(h, e);
      assert Lost(f, e) == if |h| <= e then h else h[..e];
      DigitsIsPow10();
      Pow10Add(PRECISION, |h|);
      ScaledRemainder(CutOff(Value(a + f), Pow10(|f|)), Pow10(|f|), Value(h), Pow10(e), Pow10(|h|));
    }
  }

  lemma {:induction false} CutOffShort(n: nat, k: nat)
    requires k <= PRECISION
    ensures CutOff(n, Pow10(k)) == 0
  {
    DigitsIsPow10();
    Pow10Add(k, PRECISION - k);
    DivExact(n, Pow10(k), Pow10(PRECISION - k), DIGITS);
  }

  lemma {:induction false} ScaledRemainder(c: nat, p: nat, x: nat, q: nat, w: nat)
    requires w > 0 && c == DIGITS * x && p == DIGITS * w
    ensures (c * q) / p == (x * q) / w
  {
    assert (DIGITS * x) * q == DIGITS * (x * q);
    DivScale(x * q, w, DIGITS);
  }

  /** Scaling a fraction by 10^e brings up its first `e` digits. */
  lemma {:induction false} LeadingDigitsZero(h: string, e: nat)
    requires AllDigits(h)
    ensures var t := if |h| <= e then h else h[..e];
            AllDigits(t) && ((Value(h) * Pow10(e)) / Pow10(|h|) == 0 <==> Value(t) == 0)
  {
    if |h| <= e {
      Pow10Add(|h|, e - |h|);
      DivExact(Value(h), Pow10(|h|), Pow10(e - |h|), Pow10(e));
      MulMonotone(0, Value(h), 1, Pow10(e - |h|));
    } else {
      assert h == h[..e] + h[e..];
      ValueConcat(h[..e], h[e..]);
      ValueBound(h[e..]);
      Pow10Add(e, |h| - e);
      DivSplit(Value(h[..e]), Value(h[e..]), Pow10(|h| - e), Pow10(e));
      assert Value(h) * Pow10(e) == Pow10(e) * Value(h);
    }
  }

  /** Nineteen fractional digits and an exponent of one: the last digit is lost, though it would fit. */
  lemma {:induction false} PositiveExponentLosesDigits()
    ensures var s := "" + ("." + (Zeros(PRECISION) + "5")) + "e1";
            FromString(s).Ok? && Exponent(s) == 1 && FromString(s).value < Truncated(Numerator(s), Denominator(s))
  {
    var f := Zeros(PRECISION) + "5";
    var s := "" + ("." + f) + "e1";
    assert ("." + f)[1..] == f && "e1"[1..] == "1" && "" + ("." + f) == "." + f;
    assert RegexGroups(s, "", "." + f, "e1");
    GroupsMatch(s, "", "." + f, "e1");
    assert "1"[..0] == "" && Value("1") == 1 && "5"[..0] == "" && Value("5") == 5;
    Accepted(s);
    FromStringPositiveExponent(s);
    assert f[PRECISION..] == "5";
  }
}
