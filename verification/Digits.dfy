/** Decimal digit strings and the numbers they write. */
module Digits {
  import opened Arithmetic

  predicate IsDigit(c: char) {
    '0' <= c <= '9'
  }

  predicate AllDigits(s: string) {
    forall i :: 0 <= i < |s| ==> IsDigit(s[i])
  }

  function DigitValue(c: char): (d: nat)
    requires IsDigit(c)
    ensures d < 10
  {
    c as int - '0' as int
  }

  function DigitChar(d: nat): (c: char)
    requires d < 10
    ensures IsDigit(c) && DigitValue(c) == d
  {
    ('0' as int + d) as char
  }

  /** The number a digit string writes; the empty string writes 0. */
  function Value(s: string): nat
    requires AllDigits(s)
  {
    if s == "" then 0 else 10 * Value(s[..|s| - 1]) + DigitValue(s[|s| - 1])
  }

  /** BigNumber's `toString`. */
  function NatToString(n: nat): (s: string)
    ensures s != "" && AllDigits(s)
  {
    if n < 10 then [DigitChar(n)] else NatToString(n / 10) + [DigitChar(n % 10)]
  }

  function Zeros(n: nat): (s: string)
    ensures |s| == n && AllDigits(s) && forall i :: 0 <= i < n ==> s[i] == '0'
  {
    seq(n, _ => '0')
  }

  /** `padStart(n, "0")`. */
  function PadStart(s: string, n: nat): string {
    if |s| < n then Zeros(n - |s|) + s else s
  }

  /** `replace(/0*$/, "")`. */
  function TrimZeros(s: string): (t: string)
    ensures |t| <= |s| && t == s[..|t|]
  {
    if s != "" && s[|s| - 1] == '0' then TrimZeros(s[..|s| - 1]) else s
  }

  /** A numeral as BigNumber prints it: no leading zero unless it is just "0". */
  predicate IsNumeral(s: string) {
    s != "" && AllDigits(s) && (s[0] == '0' ==> |s| == 1)
  }

  lemma {:induction false} ValueConcat(s: string, t: string)
    requires AllDigits(s) && AllDigits(t)
    ensures Value(s + t) == Value(s) * Pow10(|t|) + Value(t)
  {
    if t == "" {
      assert s + t == s;
    } else {
      var t' := t[..|t| - 1];
      assert (s + t)[..|s + t| - 1] == s + t';
      ValueConcat(s, t');
      ShiftedSum(Value(s), Pow10(|t'|), Value(t'), DigitValue(t[|t| - 1]));
    }
  }

  lemma ShiftedSum(u: nat, p: nat, v: nat, d: nat)
    ensures 10 * (u * p + v) + d == u * (10 * p) + (10 * v + d)
  {
  }

  lemma {:induction false} ValueBound(s: string)
    requires AllDigits(s)
    ensures Value(s) < Pow10(|s|)
  {
    if s != "" {
      ValueBound(s[..|s| - 1]);
    }
  }

  lemma {:induction false} ValueZeros(n: nat)
    ensures Value(Zeros(n)) == 0
  {
    if n > 0 {
      assert Zeros(n)[..n - 1] == Zeros(n - 1);
      ValueZeros(n - 1);
    }
  }

  /** Digit strings of the same length write different numbers unless they are equal. */
  lemma {:induction false} ValueInjective(s: string, t: string)
    requires AllDigits(s) && AllDigits(t) && |s| == |t| && Value(s) == Value(t)
    ensures s == t
  {
    if s != "" {
      var n := |s| - 1;
      var s', t' := s[..n], t[..n];
      assert AllDigits(s') && AllDigits(t');
      LastDigit(Value(s'), DigitValue(s[n]), Value(t'), DigitValue(t[n]));
      ValueInjective(s', t');
      assert s == s' + [s[n]] && t == t' + [t[n]];
    }
  }

  lemma {:induction false} LastDigit(u: nat, c: nat, v: nat, d: nat)
    requires c < 10 && d < 10 && 10 * u + c == 10 * v + d
    ensures u == v && c == d
  {
  }

  /** Printing a number gives the numeral that writes it, of the expected length. */
  lemma {:induction false} NatToStringValue(n: nat)
    ensures Value(NatToString(n)) == n && IsNumeral(NatToString(n))
    ensures n > 0 ==> Pow10(|NatToString(n)| - 1) <= n
    ensures n < Pow10(|NatToString(n)|)
  {
    var s := NatToString(n);
    ValueBound(s);
    if n < 10 {
      assert s[..0] == "";
    } else {
      NatToStringValue(n / 10);
      assert s[..|s| - 1] == NatToString(n / 10);
    }
  }

  /** A number below 10^k is printed with at most `k` digits. */
  lemma {:induction false} NatToStringLength(n: nat, k: nat)
    requires k >= 1
    ensures |NatToString(n)| <= k <==> n < Pow10(k)
  {
    NatToStringValue(n);
    var l := |NatToString(n)|;
    if l <= k {
      Pow10Monotone(l, k);
    } else if n > 0 {
      Pow10Monotone(k, l - 1);
    }
  }

  lemma {:induction false} PadStartValue(n: nat, k: nat)
    requires k >= 1 && n < Pow10(k)
    ensures |PadStart(NatToString(n), k)| == k && AllDigits(PadStart(NatToString(n), k))
    ensures Value(PadStart(NatToString(n), k)) == n
  {
    NatToStringLength(n, k);
    NatToStringValue(n);
    var s := NatToString(n);
    LeftPadded(s, k - |s|);
  }

  lemma {:induction false} LeftPadded(s: string, k: nat)
    requires AllDigits(s)
    ensures AllDigits(Zeros(k) + s) && Value(Zeros(k) + s) == Value(s)
  {
    ValueConcat(Zeros(k), s);
    ValueZeros(k);
  }

  lemma {:induction false} RightPadded(s: string, k: nat)
    requires AllDigits(s)
    ensures AllDigits(s + Zeros(k)) && Value(s + Zeros(k)) == Value(s) * Pow10(k)
  {
    ValueConcat(s, Zeros(k));
    ValueZeros(k);
  }

  /** The number of digits of a numeral follows from the number it writes. */
  lemma {:induction false} NumeralLength(s: string, t: string)
    requires IsNumeral(s) && IsNumeral(t) && Value(s) == Value(t)
    ensures |s| <= |t|
  {
    if |s| > 1 {
      LeadingDigit(s);
      ValueBound(t);
      Pow10Order(|s| - 1, |t|);
    }
  }

  lemma {:induction false} LeadingDigit(s: string)
    requires s != "" && AllDigits(s) && s[0] != '0'
    ensures Pow10(|s| - 1) <= Value(s)
  {
    assert s == s[..1] + s[1..];
    ValueConcat(s[..1], s[1..]);
    assert s[..1][..0] == "";
    assert Value(s[..1]) == DigitValue(s[0]) >= 1;
    MulMonotone(1, Value(s[..1]), Pow10(|s| - 1), Pow10(|s| - 1));
  }

  /** Numerals are the printed forms of numbers: reading one and printing it gives it back. */
  lemma {:induction false} NumeralIsPrinted(s: string)
    requires AllDigits(s)
    ensures NatToString(Value(s)) == s <==> IsNumeral(s)
  {
    NatToStringValue(Value(s));
    if IsNumeral(s) {
      NumeralLength(s, NatToString(Value(s)));
      NumeralLength(NatToString(Value(s)), s);
      ValueInjective(s, NatToString(Value(s)));
    }
  }

  /** Trimming drops zeros only, and leaves none at the end. */
  lemma {:induction false} TrimZerosSplit(s: string)
    ensures s == TrimZeros(s) + Zeros(|s| - |TrimZeros(s)|)
    ensures TrimZeros(s) != "" ==> TrimZeros(s)[|TrimZeros(s)| - 1] != '0'
  {
    if s != "" && s[|s| - 1] == '0' {
      var s' := s[..|s| - 1];
      TrimZerosSplit(s');
      OneMoreZero(TrimZeros(s'), |s'| - |TrimZeros(s')|);
      assert s == s' + "0";
    } else {
      assert s == s + Zeros(0);
    }
  }

  lemma OneMoreZero(t: string, k: nat)
    ensures t + Zeros(k) + "0" == t + Zeros(k + 1)
  {
  }

  /** Trimming undoes padding on the right. */
  lemma {:induction false} TrimPadded(s: string, k: nat)
    requires s == "" || s[|s| - 1] != '0'
    ensures TrimZeros(s + Zeros(k)) == s
  {
    if k == 0 {
      assert s + Zeros(0) == s;
    } else {
      assert (s + Zeros(k))[..|s| + k - 1] == s + Zeros(k - 1);
      TrimPadded(s, k - 1);
    }
  }
}
