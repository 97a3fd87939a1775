/**
 * The contracts' own decimal converter (packages/contracts/utils/BNConverter.js), against Decimal.
 * Numbers are plain: digits and points, without sign or exponent.
 */
module BNConverter {
  import opened Arithmetic
  import opened Decimals
  import opened DecimalPrint
  import opened DecimalText
  import opened Digits
  import opened Wrappers

  predicate IsPlainText(s: string) {
    forall i :: 0 <= i < |s| ==> IsDigit(s[i]) || s[i] == '.'
  }

  /** What decimal.js takes for a number: /^(\d+(\.\d*)?|\.\d+)$/ on plain text. */
  predicate OnlyNumericChars(s: string) {
    IsPlain(s) && s != "" && s != "."
  }

  /** Callers may leave out `precision`; then any number of places is taken, and none are added. */
  function Places(s: string, precision: Option<nat>): nat {
    if precision.Some? then precision.value else |After(s, '.')|
  }

  function MakeBN(s: string, precision: Option<nat>): Result<nat>
    requires IsPlainText(s)
  {
    if !OnlyNumericChars(s) then Err(NonNumericInput) else
      var intPart, fractionPart := Before(s, '.'), After(s, '.');
      var places := Places(s, precision);
      if |fractionPart| > places then Err(TooManyDecimalPlaces)
      else
        RightPadded(intPart + fractionPart, places - |fractionPart|);
        Ok(Value(intPart + fractionPart + Zeros(places - |fractionPart|)))
  }

  function MakeBN18(s: string): Result<nat>
    requires IsPlainText(s)
  {
    MakeBN(s, Some(PRECISION))
  }

  /** The text that `makeDecimal` hands to decimal.js; `slice(-0)` is the whole string. */
  function MakeDecimal(n: nat, digits: nat): string {
    var s := NatToString(n);
    if |s| <= digits then ZeroPoint(s, digits)
    else if digits == 0 then s + "." + s
    else WithPoint(s, digits)
  }

  function ZeroPoint(s: string, places: nat): string
    requires |s| <= places
  {
    "0." + (Zeros(places - |s|) + s)
  }

  function WithPoint(s: string, places: nat): string
    requires places <= |s|
  {
    s[..|s| - places] + "." + s[|s| - places..]
  }

  /** The text of `n / 10^places`, with exactly these places. */
  function Fixed10(n: nat, places: nat): string {
    if places == 0 then NatToString(n) else WithPoint(PadStart(NatToString(n), places + 1), places)
  }

  /** decimal.js's `toFixed` of the number that `s` writes, which rounds half up. */
  function ToFixed(s: string, places: nat): string
    requires IsPlain(s)
  {
    var f := After(s, '.');
    Fixed10(Nearest(Value(Before(s, '.') + f) * Pow10(places), Pow10(|f|)), places)
  }

  /** Scaling a numeral by 10^precision, exactly. */
  lemma {:induction false} MakeBNScales(s: string, precision: Option<nat>)
    requires IsPlainText(s) && MakeBN(s, precision).Ok?
    ensures var f, places := After(s, '.'), Places(s, precision);
            |f| <= places && AllDigits(Before(s, '.') + f) &&
            MakeBN(s, precision) == Ok(Value(Before(s, '.') + f) * Pow10(places - |f|))
  {
    var f := After(s, '.');
    RightPadded(Before(s, '.') + f, Places(s, precision) - |f|);
  }

  /** Why `makeBN` fails: the text is no number, or it has more places than asked for. */
  lemma MakeBNFails(s: string, precision: Option<nat>)
    requires IsPlainText(s)
    ensures MakeBN(s, precision) == Err(NonNumericInput) <==> !IsPlain(s) || s == "" || s == "."
    ensures MakeBN(s, precision) == Err(TooManyDecimalPlaces)
            <==> IsPlain(s) && s != "" && s != "." && precision.Some? && |After(s, '.')| > precision.value
    ensures MakeBN(s, precision).Err? ==> MakeBN(s, precision).error in {NonNumericInput, TooManyDecimalPlaces}
  {
  }

  /** At 18 places the two converters agree wherever both accept, and differ in acceptance as stated. */
  lemma {:induction false} AgreesWithDecimal(s: string)
    requires IsPlainText(s)
    ensures MakeBN18(s).Ok? ==> MakeBN18(s) == FromString(s)
    ensures MakeBN18(s).Ok? <==> FromString(s).Ok? && |After(s, '.')| <= PRECISION && s != "."
  {
    IndexOfMissing(s, 'e');
    Accepted(s);
    if MakeBN18(s).Ok? {
      var f := After(s, '.');
      MakeBNScales(s, Some(PRECISION));
      FromPlainIsFloor(s);
      assert FromString(s) == Ok(FromPlain(s));
      DigitsIsPow10();
      Pow10Add(|f|, PRECISION - |f|);
      DivExact(Value(Before(s, '.') + f), Pow10(|f|), Pow10(PRECISION - |f|), DIGITS);
    }
  }

  /** A numeral before the point, digits after it. */
  lemma {:induction false} Pointed(s: string, a: string, f: string)
    requires s == a + "." + f && AllDigits(a) && AllDigits(f) && a != ""
    ensures IsPlainText(s) && Before(s, '.') == a && After(s, '.') == f && OnlyNumericChars(s)
  {
    DigitsHave(a, '.');
    IndexOfSplit(a, '.', f);
    assert s[0] == a[0];
  }

  /** `s` is plain, has `places` digits after the point, and without the point writes `n`. */
  predicate Writes(s: string, n: nat, places: nat) {
    && IsPlainText(s) && OnlyNumericChars(s) && |After(s, '.')| == places
    && AllDigits(Before(s, '.') + After(s, '.')) && Value(Before(s, '.') + After(s, '.')) == n
  }

  lemma {:induction false} WithPointWrites(t: string, places: nat, s: string, n: nat)
    requires AllDigits(t) && places < |t| && Value(t) == n && s == WithPoint(t, places)
    ensures Writes(s, n, places)
  {
    var a, f := t[..|t| - places], t[|t| - places..];
    assert t == a + f;
    Pointed(s, a, f);
  }

  lemma {:induction false} MakeDecimalWrites(n: nat, digits: nat)
    requires digits >= 1
    ensures Writes(MakeDecimal(n, digits), n, digits)
  {
    NatToStringValue(n);
    if |NatToString(n)| <= digits {
      ZeroPointWrites(NatToString(n), digits, MakeDecimal(n, digits), n);
    } else {
      WithPointWrites(NatToString(n), digits, MakeDecimal(n, digits), n);
    }
  }

  lemma {:induction false} ZeroPointWrites(t: string, places: nat, s: string, n: nat)
    requires AllDigits(t) && |t| <= places && Value(t) == n && s == ZeroPoint(t, places)
    ensures Writes(s, n, places)
  {
    var f := Zeros(places - |t|) + t;
    LeftPadded(t, places - |t|);
    LeftPadded(f, 1);
    assert Zeros(1) == "0";
    assert s == "0" + "." + f;
    Pointed(s, "0", f);
  }

  /** Without decimal places all digits appear twice, before and after the point. */
  lemma {:induction false} MakeDecimalDoubles(n: nat)
    ensures var l := |NatToString(n)|; Writes(MakeDecimal(n, 0), n * Pow10(l) + n, l)
  {
    var t := NatToString(n);
    NatToStringValue(n);
    ValueConcat(t, t);
    Pointed(MakeDecimal(n, 0), t, t);
  }

  lemma {:induction false} Fixed10Writes(n: nat, places: nat)
    ensures Writes(Fixed10(n, places), n, places)
  {
    if places == 0 {
      WholeWrites(n);
    } else {
      PadStartWide(n, places + 1);
      WithPointWrites(PadStart(NatToString(n), places + 1), places, Fixed10(n, places), n);
    }
  }

  lemma {:induction false} WholeWrites(n: nat)
    ensures Writes(NatToString(n), n, 0)
  {
    var t := NatToString(n);
    NatToStringValue(n);
    DigitsHave(t, '.');
    IndexOfMissing(t, '.');
    assert t + "" == t;
  }

  lemma {:induction false} PadStartWide(n: nat, k: nat)
    ensures var p := PadStart(NatToString(n), k); |p| >= k && AllDigits(p) && Value(p) == n
  {
    NatToStringValue(n);
    var t := NatToString(n);
    if |t| < k {
      LeftPadded(t, k - |t|);
    }
  }

  /** Reading a text with the places it has, or with none asked for, gives the number without its point. */
  lemma {:induction false} MakeBNOfWritten(s: string, n: nat, places: nat)
    requires Writes(s, n, places)
    ensures MakeBN(s, Some(places)) == Ok(n) == MakeBN(s, None)
  {
    MakeBNScales(s, Some(places));
    MakeBNScales(s, None);
    assert Pow10(0) == 1;
  }

  /** What `makeDecimal` makes is `n / 10^digits` exactly if there are decimal places, or `n` is zero. */
  lemma {:induction false} MakeDecimalDenotes(n: nat, digits: nat)
    ensures var s := MakeDecimal(n, digits);
            && IsPlainText(s) && OnlyNumericChars(s) && AllDigits(Before(s, '.') + After(s, '.'))
            && (Value(Before(s, '.') + After(s, '.')) * Pow10(digits) == n * Pow10(|After(s, '.')|)
                <==> digits >= 1 || n == 0)
  {
    if digits >= 1 {
      MakeDecimalWrites(n, digits);
    } else {
      MakeDecimalDoubles(n);
      assert Pow10(0) == 1;
    }
  }

  /** `toFixed(places)`, and then `makeBN`, with these places or without a precision, gives `q`. */
  predicate ReadsBack(s: string, places: nat, q: nat) {
    IsPlain(s) && IsPlainText(ToFixed(s, places))
    && MakeBN(ToFixed(s, places), Some(places)) == Ok(q) == MakeBN(ToFixed(s, places), None)
  }

  lemma {:induction false} WithPlacesReadsBack(n: nat, digits: nat)
    requires digits >= 1
    ensures ReadsBack(MakeDecimal(n, digits), digits, n)
  {
    MakeDecimalWrites(n, digits);
    NearestIdempotent(n, Pow10(digits));
    FixedBack(MakeDecimal(n, digits), n, digits, digits, n);
  }

  lemma {:induction false} WithoutPlacesReadsBack(n: nat)
    ensures ReadsBack(MakeDecimal(n, 0), 0, if NatToString(n)[0] < '5' then n else n + 1)
  {
    var l := |NatToString(n)|;
    var m := n * Pow10(l) + n;
    MakeDecimalDoubles(n);
    RoundedDouble(n, l, m);
    FixedBack(MakeDecimal(n, 0), m, l, 0, if NatToString(n)[0] < '5' then n else n + 1);
  }

  lemma {:induction false} RoundedDouble(n: nat, l: nat, m: nat)
    requires l == |NatToString(n)| && m == n * Pow10(l) + n
    ensures Nearest(m * Pow10(0), Pow10(l)) == if NatToString(n)[0] < '5' then n else n + 1
  {
    NatToStringValue(n);
    FirstDigit(n);
    NearestWithFraction(n, Pow10(l));
    assert m * Pow10(0) == m;
  }

  /**
   * Making a decimal, printing it with as many places and reading that gives the number back exactly if
   * there are decimal places, or if the number's first digit is below 5; otherwise it gives one more.
   */
  lemma {:induction false} MakeDecimalInverse(n: nat, digits: nat)
    ensures ReadsBack(MakeDecimal(n, digits), digits, n) <==> digits >= 1 || NatToString(n)[0] < '5'
    ensures !ReadsBack(MakeDecimal(n, digits), digits, n) ==> ReadsBack(MakeDecimal(n, digits), digits, n + 1)
  {
    if digits >= 1 {
      WithPlacesReadsBack(n, digits);
    } else {
      WithoutPlacesReadsBack(n);
    }
  }

  /** Printing what a text writes with a number of places, and reading that, rounds it to these places. */
  lemma {:induction false} FixedBack(s: string, m: nat, k: nat, places: nat, q: nat)
    requires Writes(s, m, k) && q == Nearest(m * Pow10(places), Pow10(k))
    ensures ReadsBack(s, places, q)
  {
    Fixed10Writes(q, places);
    MakeBNOfWritten(Fixed10(q, places), q, places);
    assert ToFixed(s, places) == Fixed10(q, places);
  }

  lemma NearestWithFraction(n: nat, unit: nat)
    requires n < unit
    ensures Nearest(n * unit + n, unit) == if 2 * n < unit then n else n + 1
  {
    var w, q := 2 * unit, if 2 * n < unit then n else n + 1;
    assert w * n == 2 * (n * unit) && w * (n + 1) == w * n + w;
    DivUnique(2 * (n * unit + n) + unit, w, q);
  }

  /** A number's first digit tells on which side of half of the next power of ten it is. */
  lemma {:induction false} FirstDigit(n: nat)
    ensures NatToString(n)[0] < '5' <==> 2 * n < Pow10(|NatToString(n)|)
  {
    if n >= 10 {
      FirstDigit(n / 10);
      var p := Pow10(|NatToString(n / 10)|);
      assert p == 10 * Pow10(|NatToString(n / 10)| - 1);
      HalfOfTen(n, p);
    } else {
      assert Pow10(1) == 10;
    }
  }

  lemma HalfOfTen(n: nat, p: nat)
    requires p % 2 == 0
    ensures 2 * n < 10 * p <==> 2 * (n / 10) < p
  {
  }

  /** 12 without decimal places becomes 12.12, and 7 comes back as 8. */
  lemma {:induction false} MakeDecimalOfWholes()
    ensures MakeDecimal(12, 0) == "12.12"
    ensures IsPlain(MakeDecimal(7, 0)) && ToFixed(MakeDecimal(7, 0), 0) == "8"
  {
    assert NatToString(1) == "1" && NatToString(12) == "12" && NatToString(7) == "7" && NatToString(8) == "8";
    assert MakeDecimal(12, 0) == "12.12" by { assert "12" + "." + "12" == "12.12"; }
    MakeDecimalDoubles(7);
    assert Pow10(1) == 10 && Pow10(0) == 1;
    NearestWithFraction(7, 10);
  }
}
