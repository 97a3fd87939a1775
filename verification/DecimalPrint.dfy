/** Printing Decimals (packages/lib-base/src/Decimal.ts, lines 130-174), against reading them. */
module DecimalPrint {
  import opened Arithmetic
  import opened Decimals
  import opened DecimalText
  import opened Digits
  import opened Wrappers

  function AutomaticString(v: Decimal): string {
    Printed(v / DIGITS, v % DIGITS)
  }

  function Printed(characteristic: nat, mantissa: nat): string {
    if mantissa == 0 then NatToString(characteristic)
    else NatToString(characteristic) + "." + TrimZeros(PadStart(NatToString(mantissa), PRECISION))
  }

  function RoundUp(v: Decimal, precision: nat): nat
    requires precision < PRECISION
  {
    v + Pow10(PRECISION - 1 - precision) * 5
  }

  function PrecisionString(v: Decimal, precision: int): Result<string> {
    if precision < 0 then Err(NegativePrecision)
    else Ok(CutString(if precision < PRECISION then RoundUp(v, precision) else v, precision))
  }

  /** `value` cut to `precision` places. */
  function CutString(value: nat, precision: nat): string {
    var characteristic, mantissa := value / DIGITS, value % DIGITS;
    if precision == 0 then NatToString(characteristic) else
      var padded := PadStart(NatToString(mantissa), PRECISION);
      NatToString(characteristic) + "." + if precision < |padded| then padded[..precision] else padded
  }

  function ToString(v: Decimal, precision: Option<int>): Result<string> {
    if v == INFINITY then Ok("∞")
    else match precision
      case Some(p) => PrecisionString(v, p)
      case None => Ok(AutomaticString(v))
  }

  /** Printing fails exactly at a negative precision, and for infinity never. */
  lemma ToStringFails(v: Decimal, precision: Option<int>)
    ensures ToString(v, precision).Err? <==> v != INFINITY && precision.Some? && precision.value < 0
    ensures ToString(v, precision).Err? ==> ToString(v, precision) == Err(NegativePrecision)
    ensures ToString(INFINITY, precision) == Ok("∞")
  {
  }

  // ---------------------------------------------------------------- reading what is printed

  /** The number with integer part `c` and fractional digits `f`. */
  function Fixed(c: nat, f: string): Decimal
    requires AllDigits(f) && |f| <= PRECISION
  {
    c * DIGITS + Value(f + Zeros(PRECISION - |f|))
  }

  lemma {:induction false} FixedParts(c: nat, f: string)
    requires AllDigits(f) && |f| <= PRECISION
    ensures Fixed(c, f) / DIGITS == c && Fixed(c, f) % DIGITS == Value(f + Zeros(PRECISION - |f|))
  {
    ValueBound(f + Zeros(PRECISION - |f|));
    DigitsIsPow10();
    DivUnique(Fixed(c, f), DIGITS, c);
  }

  lemma {:induction false} FixedWhole(c: nat)
    ensures Fixed(c, "") == c * DIGITS
  {
    assert "" + Zeros(PRECISION) == Zeros(PRECISION);
    ValueZeros(PRECISION);
  }

  /** Reading a printed integer part followed by up to 18 fractional digits. */
  lemma {:induction false} ReadPrinted(s: string, c: nat, f: string, v: nat)
    requires AllDigits(f) && |f| <= PRECISION && s == NatToString(c) + "." + f
    requires v == Fixed(c, f)
    ensures FromString(s) == Ok(v)
    ensures Before(s, '.') == NatToString(c) && After(s, '.') == f && '.' in s
  {
    var a := NatToString(c);
    assert s == a + ("." + f) + "" && a + ("." + f) == s;
    assert RegexGroups(s, a, "." + f, "");
    GroupsMatch(s, a, "." + f, "");
    NatToStringValue(c);
    assert FromString(s) == Ok(FromPlain(s));
    if |f| == PRECISION {
      assert f[..PRECISION] == f == f + Zeros(0);
    }
  }

  lemma {:induction false} ReadPrintedWhole(s: string, c: nat, v: nat)
    requires s == NatToString(c) && v == Fixed(c, "")
    ensures FromString(s) == Ok(v)
    ensures Before(s, '.') == s && After(s, '.') == "" && '.' !in s
  {
    FixedWhole(c);
    assert s == s + "" + "" && s + "" == s;
    assert RegexGroups(s, s, "", "");
    GroupsMatch(s, s, "", "");
    NatToStringValue(c);
    assert FromString(s) == Ok(FromPlain(s));
  }

  lemma {:induction false} MantissaDigits(m: nat)
    requires m < DIGITS
    ensures var p := PadStart(NatToString(m), PRECISION);
            |p| == PRECISION && AllDigits(p) && Value(p) == m
  {
    DigitsIsPow10();
    PadStartValue(m, PRECISION);
  }

  /** Reading the automatic-precision print gives the number back. */
  lemma {:induction false} ParsePrint(v: Decimal)
    ensures FromString(AutomaticString(v)) == Ok(v)
  {
    var s, c, m := AutomaticString(v), v / DIGITS, v % DIGITS;
    if m == 0 {
      FixedWhole(c);
      ReadPrintedWhole(s, c, v);
    } else {
      TrimmedMantissa(m);
      ReadPrinted(s, c, TrimZeros(PadStart(NatToString(m), PRECISION)), v);
    }
  }

  lemma {:induction false} TrimmedMantissa(m: nat)
    requires 0 < m < DIGITS
    ensures var f := TrimZeros(PadStart(NatToString(m), PRECISION));
            && f != "" && |f| <= PRECISION && AllDigits(f) && f[|f| - 1] != '0'
            && Value(f + Zeros(PRECISION - |f|)) == m
  {
    MantissaDigits(m);
    var p := PadStart(NatToString(m), PRECISION);
    var f := TrimZeros(p);
    TrimZerosSplit(p);
    assert forall i :: 0 <= i < |f| ==> f[i] == p[i];
    if f == "" {
      assert p == Zeros(PRECISION);
      ValueZeros(PRECISION);
    }
  }

  /** Every Decimal but INFINITY survives printing and reading. */
  lemma {:induction false} ToStringRoundTrip(v: Decimal)
    ensures FromString(ToString(v, None).value) == Ok(v) <==> v != INFINITY
  {
    ParsePrint(v);
    if v == INFINITY {
      assert IndexOf("∞", 'e') == 1 && IndexOf("∞", '.') == 1;
      assert !IsDigit("∞"[0]);
    }
  }

  // ---------------------------------------------------------------- the canonical form

  /** A numeral, and possibly a point and at most 18 fractional digits not ending in a zero. */
  predicate IsCanonical(s: string) {
    var f := After(s, '.');
    && IsNumeral(Before(s, '.')) && ('.' in s ==> f != "")
    && |f| <= PRECISION && AllDigits(f) && (f != "" ==> f[|f| - 1] != '0')
  }

  lemma {:induction false} PrintIsCanonical(v: Decimal)
    ensures IsCanonical(AutomaticString(v))
  {
    var s, c, m := AutomaticString(v), v / DIGITS, v % DIGITS;
    NatToStringValue(c);
    assert s == Printed(c, m);
    if m == 0 {
      FixedWhole(c);
      ReadPrintedWhole(s, c, v);
    } else {
      TrimmedMantissa(m);
      ReadPrinted(s, c, TrimZeros(PadStart(NatToString(m), PRECISION)), v);
    }
  }

  lemma {:induction false} CanonicalIsPrint(s: string)
    requires IsCanonical(s)
    ensures FromString(s).Ok? && AutomaticString(FromString(s).value) == s
  {
    var a, f := Before(s, '.'), After(s, '.');
    FromSplits(s, '.');
    NumeralIsPrinted(a);
    var v := Fixed(Value(a), f);
    PrintFixed(Value(a), f);
    if '.' !in s {
      IndexOfMissing(s, '.');
      ReadPrintedWhole(s, Value(a), v);
    } else {
      ReadPrinted(s, Value(a), f, v);
    }
  }

  lemma {:induction false} PrintFixed(c: nat, f: string)
    requires AllDigits(f) && |f| <= PRECISION && (f != "" ==> f[|f| - 1] != '0')
    ensures AutomaticString(Fixed(c, f)) == NatToString(c) + (if f == "" then "" else "." + f)
  {
    FixedParts(c, f);
    var m := Value(f + Zeros(PRECISION - |f|));
    assert AutomaticString(Fixed(c, f)) == Printed(c, m);
    if f == "" {
      FixedWhole(c);
    } else {
      NonZeroValue(f, PRECISION - |f|);
      PaddedBack(f, PRECISION - |f|);
    }
  }

  /** Trimming the printed mantissa gives back the fractional digits it was read from. */
  lemma {:induction false} PaddedBack(f: string, k: nat)
    requires AllDigits(f) && f != "" && f[|f| - 1] != '0' && |f| + k == PRECISION
    ensures AllDigits(f + Zeros(k)) && Value(f + Zeros(k)) < DIGITS
    ensures TrimZeros(PadStart(NatToString(Value(f + Zeros(k))), PRECISION)) == f
  {
    var g := f + Zeros(k);
    ValueBound(g);
    DigitsIsPow10();
    MantissaDigits(Value(g));
    ValueInjective(g, PadStart(NatToString(Value(g)), PRECISION));
    TrimPadded(f, k);
  }

  lemma {:induction false} NonZeroValue(f: string, k: nat)
    requires AllDigits(f) && f != "" && f[|f| - 1] != '0'
    ensures AllDigits(f + Zeros(k)) && Value(f + Zeros(k)) > 0
  {
    RightPadded(f, k);
    assert Value(f) > 0;
    MulMonotone(1, Value(f), 1, Pow10(k));
  }

  /** The canonical representations are exactly the ones that reading and printing leave alone. */
  lemma {:induction false} CanonicalForm(s: string)
    ensures IsCanonical(s) <==> FromString(s).Ok? && AutomaticString(FromString(s).value) == s
  {
    if IsCanonical(s) {
      CanonicalIsPrint(s);
    }
    if FromString(s).Ok? {
      PrintIsCanonical(FromString(s).value);
    }
  }

  // ---------------------------------------------------------------- rounding to a precision

  /** `v` as a count of multiples of `unit`, rounded to the nearest, ties upwards. */
  function Nearest(v: nat, unit: nat): nat
    requires unit > 0
  {
    DivGalois(2 * v + unit, 2 * unit, 0);
    (2 * v + unit) / (2 * unit)
  }

  function HalfUp(v: Decimal, precision: nat): nat
    requires precision < PRECISION
  {
    Nearest(v, Pow10(PRECISION - precision))
  }

  /** `Nearest` is what its name says. */
  lemma NearestIsNearest(v: nat, unit: nat)
    requires unit > 0
    ensures 2 * v - unit < 2 * (Nearest(v, unit) * unit) <= 2 * v + unit
  {
    var h, w := Nearest(v, unit), 2 * unit;
    DivBounds(2 * v + unit, w);
    assert w * h == 2 * (h * unit);
  }

  lemma NearestMonotone(v: nat, w: nat, unit: nat)
    requires unit > 0 && v <= w
    ensures Nearest(v, unit) <= Nearest(w, unit)
  {
    DivMonotone(2 * v + unit, 2 * w + unit, 2 * unit);
  }

  lemma NearestIdempotent(h: nat, unit: nat)
    requires unit > 0
    ensures Nearest(h * unit, unit) == h
  {
    RoundMultiple(h, unit, h * unit, 2 * unit);
  }

  lemma RoundMultiple(h: nat, unit: nat, n: nat, w: nat)
    requires unit > 0 && n == h * unit && w == 2 * unit
    ensures (2 * n + unit) / w == h
  {
    assert w * h == 2 * n;
    DivUnique(2 * n + unit, w, h);
  }

  /** The code rounds by adding half a unit and cutting. */
  lemma RoundUpCut(v: Decimal, precision: nat)
    requires precision < PRECISION
    ensures RoundUp(v, precision) / Pow10(PRECISION - precision) == HalfUp(v, precision)
  {
    var unit := Pow10(PRECISION - precision);
    assert unit == 10 * Pow10(PRECISION - 1 - precision);
    DivScale(RoundUp(v, precision), unit, 2);
  }

  /** The first `p` mantissa digits, with the characteristic, write the cut number. */
  lemma {:induction false} CutMantissa(value: nat, p: nat)
    requires p <= PRECISION
    ensures var s := PadStart(NatToString(value % DIGITS), PRECISION);
            var unit := Pow10(PRECISION - p);
            && |s| == PRECISION && AllDigits(s[..p])
            && Fixed(value / DIGITS, s[..p]) == value / unit * unit
  {
    var c, m := value / DIGITS, value % DIGITS;
    var s := PadStart(NatToString(m), PRECISION);
    MantissaDigits(m);
    assert s == s[..p] + s[p..] && AllDigits(s[..p]) && AllDigits(s[p..]);
    ValueConcat(s[..p], s[p..]);
    ValueBound(s[p..]);
    RightPadded(s[..p], PRECISION - p);
    DigitsIsPow10();
    Pow10Add(p, PRECISION - p);
    CutSum(value, c, DIGITS, Pow10(p), Pow10(PRECISION - p), Value(s[..p]), Value(s[p..]));
  }

  lemma CutSum(value: nat, c: nat, d: nat, w: nat, unit: nat, hi: nat, lo: nat)
    requires d == w * unit && lo < unit && value == c * d + (hi * unit + lo)
    ensures value / unit * unit == c * d + hi * unit
  {
    assert c * (w * unit) == (c * w) * unit;
    var q := c * w + hi;
    assert q * unit == (c * w) * unit + hi * unit;
    assert q * unit == unit * q;
    DivUnique(value, unit, q);
  }

  /** What is printed has exactly the digits asked for after the point. */
  predicate HasPrecision(s: string, precision: nat) {
    && IsNumeral(Before(s, '.'))
    && (precision == 0 ==> '.' !in s)
    && (precision > 0 ==> '.' in s && |After(s, '.')| == precision && AllDigits(After(s, '.')))
  }

  /**
   * Below 18 places the print denotes the half-up rounding, carries across the point included, and
   * has exactly the places asked for; from 18 places on it is exact and has 18.
   */
  lemma {:induction false} PrecisionPrint(v: Decimal, precision: nat)
    ensures var s := PrecisionString(v, precision).value;
            if precision < PRECISION
            then HasPrecision(s, precision) && FromString(s) == Ok(HalfUp(v, precision) * Pow10(PRECISION - precision))
            else HasPrecision(s, PRECISION) && FromString(s) == Ok(v)
  {
    if precision < PRECISION {
      PrintRounded(v, precision);
    } else {
      PrintExact(v, precision);
    }
  }

  lemma {:induction false} PrintRounded(v: Decimal, precision: nat)
    requires precision < PRECISION
    ensures HasPrecision(PrecisionString(v, precision).value, precision)
    ensures FromString(PrecisionString(v, precision).value) == Ok(HalfUp(v, precision) * Pow10(PRECISION - precision))
  {
    RoundUpCut(v, precision);
    PrintCut(RoundUp(v, precision), precision);
  }

  lemma {:induction false} PrintExact(v: Decimal, precision: nat)
    requires precision >= PRECISION
    ensures HasPrecision(PrecisionString(v, precision).value, PRECISION)
    ensures FromString(PrecisionString(v, precision).value) == Ok(v)
  {
    CutBeyond(v, precision);
    PrintCut(v, PRECISION);
    assert Pow10(PRECISION - PRECISION) == 1;
  }

  /** The mantissa has 18 digits, so cutting it later changes nothing. */
  lemma {:induction false} CutBeyond(v: Decimal, precision: nat)
    requires precision >= PRECISION
    ensures CutString(v, precision) == CutString(v, PRECISION)
  {
    MantissaDigits(v % DIGITS);
    var padded := PadStart(NatToString(v % DIGITS), PRECISION);
    assert padded[..PRECISION] == padded;
  }

  lemma {:induction false} PrintCut(value: nat, p: nat)
    requires p <= PRECISION
    ensures HasPrecision(CutString(value, p), p)
    ensures FromString(CutString(value, p)) == Ok(value / Pow10(PRECISION - p) * Pow10(PRECISION - p))
  {
    var padded := PadStart(NatToString(value % DIGITS), PRECISION);
    var w := value / Pow10(PRECISION - p) * Pow10(PRECISION - p);
    CutMantissa(value, p);
    NatToStringValue(value / DIGITS);
    if p == 0 {
      assert padded[..0] == "";
      ReadPrintedWhole(CutString(value, 0), value / DIGITS, w);
    } else {
      assert p == |padded| ==> padded[..p] == padded;
      assert CutString(value, p) == NatToString(value / DIGITS) + "." + padded[..p];
      ReadPrinted(CutString(value, p), value / DIGITS, padded[..p], w);
    }
  }

  /** Printing at a precision what was printed at that precision changes nothing. */
  lemma {:induction false} PrecisionPrintStable(v: Decimal, precision: nat)
    ensures var s := PrecisionString(v, precision).value;
            FromString(s).Ok? && PrecisionString(FromString(s).value, precision) == Ok(s)
  {
    PrecisionPrint(v, precision);
    if precision < PRECISION {
      var h := HalfUp(v, precision);
      NearestIdempotent(h, Pow10(PRECISION - precision));
      SamePrint(v, h * Pow10(PRECISION - precision), precision);
    }
  }

  /** Numbers with the same rounding are printed alike. */
  lemma {:induction false} SamePrint(v: Decimal, w: Decimal, precision: nat)
    requires precision < PRECISION && HalfUp(v, precision) == HalfUp(w, precision)
    ensures PrecisionString(v, precision) == PrecisionString(w, precision)
  {
    var s, t := PrecisionString(v, precision).value, PrecisionString(w, precision).value;
    PrecisionPrint(v, precision);
    PrecisionPrint(w, precision);
    SameDigits(s, t, precision);
  }

  lemma {:induction false} SameDigits(s: string, t: string, precision: nat)
    requires precision <= PRECISION && HasPrecision(s, precision) && HasPrecision(t, precision)
    requires FromString(s) == FromString(t) && FromString(s).Ok?
    ensures s == t
  {
    DigitsOf(s, precision);
    DigitsOf(t, precision);
    SameParts(Before(s, '.'), After(s, '.'), Before(t, '.'), After(t, '.'));
  }

  /** A numeral and fractional digits of a given number follow from the number they write. */
  lemma {:induction false} SameParts(a: string, f: string, b: string, g: string)
    requires IsNumeral(a) && IsNumeral(b) && AllDigits(f) && AllDigits(g) && |f| == |g| <= PRECISION
    requires Fixed(Value(a), f) == Fixed(Value(b), g)
    ensures a == b && f == g
  {
    FixedParts(Value(a), f);
    FixedParts(Value(b), g);
    NumeralIsPrinted(a);
    NumeralIsPrinted(b);
    var z := Zeros(PRECISION - |f|);
    ValueInjective(f + z, g + z);
    assert f == (f + z)[..|f|] && g == (g + z)[..|f|];
  }

  lemma {:induction false} DigitsOf(s: string, precision: nat)
    requires precision <= PRECISION && HasPrecision(s, precision)
    ensures s == Before(s, '.') + From(s, '.') && From(s, '.') == (if precision == 0 then "" else "." + After(s, '.'))
    ensures |After(s, '.')| == precision && AllDigits(After(s, '.'))
    ensures FromString(s) == Ok(Fixed(Value(Before(s, '.')), After(s, '.')))
  {
    var a, f := Before(s, '.'), After(s, '.');
    FromSplits(s, '.');
    NumeralIsPrinted(a);
    var v := Fixed(Value(a), f);
    if precision == 0 {
      IndexOfMissing(s, '.');
      ReadPrintedWhole(s, Value(a), v);
    } else {
      ReadPrinted(s, Value(a), f, v);
    }
  }
}
