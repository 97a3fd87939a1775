/** Decimals for people: `prettify` and `shorten` (packages/lib-base/src/Decimal.ts, lines 15, 176-191). */
module DecimalDisplay {
  import opened Arithmetic
  import opened Decimals
  import opened DecimalPrint
  import opened DecimalText
  import opened Digits
  import opened Wrappers

  // ---------------------------------------------------------------- prettify

  /** How many digits `s` starts with. */
  function DigitRun(s: string): nat {
    if s != "" && IsDigit(s[0]) then 1 + DigitRun(s[1..]) else 0
  }

  /** What `replace(/(\d)(?=(\d{3})+(?!\d))/g, "$1,")` puts after `c` when `run` digits follow. */
  function Separator(c: char, run: nat): string {
    if IsDigit(c) && run > 0 && run % 3 == 0 then "," else ""
  }

  function InsertCommas(s: string): string {
    if s == "" then "" else [s[0]] + Separator(s[0], DigitRun(s[1..])) + InsertCommas(s[1..])
  }

  function Prettify(v: Decimal, precision: int): Result<string> {
    match ToString(v, Some(precision))
    case Err(e) => Err(e)
    case Ok(s) =>
      var pretty := InsertCommas(Before(s, '.'));
      Ok(if '.' in s then pretty + "." + After(s, '.') else pretty)
  }

  function RemoveCommas(s: string): string {
    if s == "" then ""
    else if s[0] == ',' then RemoveCommas(s[1..])
    else [s[0]] + RemoveCommas(s[1..])
  }

  /** One to three digits, then groups of a comma and three digits. */
  predicate Grouped(s: string) {
    var n := |s|;
    if n <= 3 then n > 0 && AllDigits(s)
    else s[n - 4] == ',' && AllDigits(s[n - 3..]) && Grouped(s[..n - 4])
  }

  lemma {:induction false} DigitRunAll(s: string)
    requires AllDigits(s)
    ensures DigitRun(s) == |s|
  {
    if s != "" {
      DigitRunAll(s[1..]);
    }
  }

  /** On digits, the last three are set apart from the rest by a comma. */
  lemma {:induction false} InsertCommasSplit(a: string, z: string)
    requires AllDigits(a) && a != "" && AllDigits(z) && |z| == 3
    ensures InsertCommas(a + z) == InsertCommas(a) + "," + z
    decreases |a|, 0
  {
    var c, b := a[0], a[1..];
    assert AllDigits(b) && AllDigits(b + z);
    calc {
      InsertCommas(a + z);
      { assert a + z == [c] + (b + z); InsertCommasStep(c, b + z); }
      [c] + Separator(c, |b| + 3) + InsertCommas(b + z);
      { InsertCommasTail(c, b, z); }
      [c] + Separator(c, |b|) + InsertCommas(b) + "," + z;
      { assert a == [c] + b; InsertCommasStep(c, b); }
      InsertCommas(a) + "," + z;
    }
  }

  lemma {:induction false} InsertCommasTail(c: char, b: string, z: string)
    requires IsDigit(c) && AllDigits(b) && AllDigits(z) && |z| == 3
    ensures [c] + Separator(c, |b| + 3) + InsertCommas(b + z) == [c] + Separator(c, |b|) + InsertCommas(b) + "," + z
    decreases |b|, 1
  {
    if b == "" {
      assert b + z == z;
      ShortHasNoCommas(z);
    } else {
      InsertCommasSplit(b, z);
      SeparatorShift(c, |b|);
      ConcatAssociates([c] + Separator(c, |b|), InsertCommas(b), ",", z);
    }
  }

  lemma ConcatAssociates(p: string, x: string, y: string, z: string)
    ensures p + (x + y + z) == p + x + y + z
  {
  }

  lemma InsertCommasStep(c: char, s: string)
    requires AllDigits(s)
    ensures InsertCommas([c] + s) == [c] + Separator(c, |s|) + InsertCommas(s)
  {
    assert ([c] + s)[1..] == s;
    DigitRunAll(s);
  }

  lemma SeparatorShift(c: char, run: nat)
    requires run > 0
    ensures Separator(c, run + 3) == Separator(c, run)
  {
    assert (run + 3) % 3 == run % 3;
  }

  lemma {:induction false} ShortHasNoCommas(s: string)
    requires AllDigits(s) && |s| <= 3
    ensures InsertCommas(s) == s
  {
    if s != "" {
      DigitRunAll(s[1..]);
      ShortHasNoCommas(s[1..]);
    }
  }

  lemma {:induction false} InsertCommasGrouped(s: string)
    requires AllDigits(s) && s != ""
    ensures Grouped(InsertCommas(s))
  {
    var n := |s|;
    if n <= 3 {
      ShortHasNoCommas(s);
    } else {
      var a, z := s[..n - 3], s[n - 3..];
      assert s == a + z;
      InsertCommasSplit(a, z);
      InsertCommasGrouped(a);
      GroupedMore(InsertCommas(a), z);
    }
  }

  lemma {:induction false} GroupedMore(g: string, z: string)
    requires Grouped(g) && AllDigits(z) && |z| == 3
    ensures Grouped(g + "," + z)
  {
    var r := g + "," + z;
    assert r[..|r| - 4] == g && r[|r| - 3..] == z;
  }

  lemma {:induction false} RemoveCommasConcat(s: string, t: string)
    ensures RemoveCommas(s + t) == RemoveCommas(s) + RemoveCommas(t)
  {
    if s == "" {
      assert s + t == t;
    } else {
      assert (s + t)[1..] == s[1..] + t;
      RemoveCommasConcat(s[1..], t);
    }
  }

  lemma {:induction false} RemoveNoCommas(s: string)
    requires ',' !in s
    ensures RemoveCommas(s) == s
  {
    if s != "" {
      assert s[0] in s && forall c :: c in s[1..] ==> c in s;
      RemoveNoCommas(s[1..]);
    }
  }

  lemma {:induction false} CommasOnlyInserted(s: string)
    requires ',' !in s
    ensures RemoveCommas(InsertCommas(s)) == s
  {
    if s != "" {
      var t := s[1..];
      assert s[0] in s && forall c :: c in t ==> c in s;
      CommasOnlyInserted(t);
      var separator := Separator(s[0], DigitRun(t));
      RemoveCommasConcat([s[0]] + separator, InsertCommas(t));
      RemoveCommasConcat([s[0]], separator);
      assert [s[0]][1..] == "" && separator != "" ==> separator[1..] == "";
    }
  }

  /** The parts of a prettified number, and what deleting its commas leaves. */
  lemma {:induction false} PrettifyOnlyGroups(v: Decimal, precision: nat)
    requires v != INFINITY
    ensures var s, p := ToString(v, Some(precision)).value, Prettify(v, precision).value;
            && Prettify(v, precision).Ok? && RemoveCommas(p) == s
            && Grouped(Before(p, '.')) && From(p, '.') == From(s, '.')
  {
    var s, p := ToString(v, Some(precision)).value, Prettify(v, precision).value;
    PrecisionPrint(v, precision);
    FromSplits(s, '.');
    var a, r := Before(s, '.'), From(s, '.');
    InsertCommasGrouped(a);
    DigitsHave(a, ',');
    CommasOnlyInserted(a);
    assert p == InsertCommas(a) + r;
    RemoveCommasConcat(InsertCommas(a), r);
    RemoveNoCommas(r);
    GroupedHasNoPoint(InsertCommas(a));
    if r == "" {
      assert p == InsertCommas(a);
      IndexOfMissing(p, '.');
    } else {
      IndexOfSplit(InsertCommas(a), '.', After(s, '.'));
      FromSplits(p, '.');
    }
  }

  lemma {:induction false} GroupedHasNoPoint(s: string)
    requires Grouped(s)
    ensures '.' !in s
  {
    var n := |s|;
    if n <= 3 {
      DigitsHave(s, '.');
    } else {
      var a, z := s[..n - 4], s[n - 3..];
      DigitsHave(z, '.');
      GroupedHasNoPoint(a);
      forall i | 0 <= i < n
        ensures s[i] != '.'
      {
        assert if i < n - 4 then s[i] == a[i] && a[i] in a
               else i == n - 4 || (s[i] == z[i - (n - 3)] && s[i] in z);
      }
    }
  }

  lemma PrettifyInfinity(precision: int)
    ensures Prettify(INFINITY, precision) == Ok("∞")
  {
    var s := "∞";
    assert ToString(INFINITY, Some(precision)) == Ok(s);
    assert |s| == 1 && !IsDigit(s[0]) && '.' !in s && s[1..] == "";
    assert InsertCommas(s) == s;
    IndexOfMissing(s, '.');
    assert Before(s, '.') == s;
  }

  // ---------------------------------------------------------------- shorten

  const MAGNITUDES: seq<string> := ["", "K", "M", "B", "T"]

  function CharacteristicLength(v: Decimal): nat {
    |ToString(v, Some(0)).value|
  }

  function Magnitude(v: Decimal): (m: nat)
    ensures m < |MAGNITUDES|
  {
    var m := ((CharacteristicLength(v) as int) - 1) / 3;
    if m < 0 then 0 else if m < |MAGNITUDES| - 1 then m else |MAGNITUDES| - 1
  }

  function ShortPrecision(v: Decimal): nat {
    var p: int := 3 * (Magnitude(v) + 1) - CharacteristicLength(v);
    if p < 0 then 0 else p
  }

  function Normalized(v: Decimal): Decimal {
    Div(v, Pow10(PRECISION + 3 * Magnitude(v)))
  }

  function Shorten(v: Decimal): Result<string> {
    match Prettify(Normalized(v), ShortPrecision(v))
    case Err(e) => Err(e)
    case Ok(s) => Ok(s + MAGNITUDES[Magnitude(v)])
  }

  /** The length `shorten` goes by is that of the rounded integer part. */
  lemma {:induction false} LengthOfRounded(v: Decimal)
    requires v != INFINITY
    ensures CharacteristicLength(v) == |NatToString(HalfUp(v, 0))|
  {
    RoundUpCut(v, 0);
    DigitsIsPow10();
  }

  /** The length of the rounded integer part bounds it from both sides. */
  lemma {:induction false} CharacteristicRange(v: Decimal)
    requires v != INFINITY
    ensures var l, h := CharacteristicLength(v), HalfUp(v, 0);
            l >= 1 && h < Pow10(l) && (h > 0 ==> Pow10(l - 1) <= h) && (l > 1 ==> h > 0)
  {
    LengthOfRounded(v);
    NatToStringValue(HalfUp(v, 0));
  }

  /**
   * The suffix fits the rounded integer part: at least 1 and, but for the last suffix, fewer than 1000
   * of its magnitude; and the places shown complete three digits.
   */
  lemma {:induction false} ShortenMagnitude(v: Decimal)
    requires v != INFINITY
    ensures Magnitude(v) > 0 ==> Pow10(3 * Magnitude(v)) <= HalfUp(v, 0)
    ensures Magnitude(v) < 4 ==> HalfUp(v, 0) < Pow10(3 * Magnitude(v) + 3)
    ensures var l, p := CharacteristicLength(v), ShortPrecision(v);
            if Magnitude(v) < 4 || l < 15 then l - 3 * Magnitude(v) + p == 3 else p == 0
  {
    CharacteristicRange(v);
    SuffixFits(HalfUp(v, 0), CharacteristicLength(v), Magnitude(v));
  }

  lemma {:induction false} SuffixFits(h: nat, l: nat, m: nat)
    requires l >= 1 && h < Pow10(l) && (h > 0 ==> Pow10(l - 1) <= h)
    requires m == (if (l - 1) / 3 < 4 then (l - 1) / 3 else 4) && (l > 1 ==> h > 0)
    ensures (m > 0 ==> Pow10(3 * m) <= h) && (m < 4 ==> h < Pow10(3 * m + 3))
  {
    if m > 0 {
      Pow10Monotone(3 * m, l - 1);
    }
    if m < 4 {
      Pow10Monotone(l, 3 * m + 3);
    }
  }

  lemma {:induction false} ShortPrecisionRange(v: Decimal)
    requires v != INFINITY
    ensures ShortPrecision(v) <= 2
    ensures Magnitude(v) < 4 ==> CharacteristicLength(v) + ShortPrecision(v) == 3 * Magnitude(v) + 3
  {
    CharacteristicRange(v);
  }

  lemma NearestEven(v: nat, h: nat, unit: nat)
    requires h > 0 && unit == 2 * h
    ensures Nearest(v, unit) == (v + h) / unit
  {
    DivScale(v + h, unit, 2);
  }

  /** Cutting before an even rounding does not change it. */
  lemma NearestAfterCut(v: nat, k: nat, h: nat, unit: nat, wide: nat)
    requires k > 0 && h > 0 && unit == 2 * h && wide == unit * k
    ensures v / k >= 0 && wide > 0 && Nearest(v / k, unit) == Nearest(v, wide)
  {
    var q, w := v / k, h * k;
    DivGalois(v, k, 0);
    assert wide == 2 * w == k * unit;
    NearestEven(q, h, unit);
    NearestEven(v, w, wide);
    DivAddMultiple(v, h, k);
    DivDiv(v + w, k, unit);
  }

  /** The number `shorten` shows, before commas and suffix. */
  function Body(v: Decimal): string {
    ToString(Normalized(v), Some(ShortPrecision(v))).value
  }

  /** `v` rounded once, in the last place that `shorten` shows. */
  function Shown(v: Decimal): nat
    requires v < INFINITY
  {
    ShortPrecisionRange(v);
    Nearest(v, Pow10(PRECISION - ShortPrecision(v) + 3 * Magnitude(v)))
  }

  /**
   * The number `shorten` shows is one half-up rounding of the exact quotient, although the code
   * truncates the quotient before rounding it.
   */
  lemma {:induction false} ShortenRoundsOnce(v: Decimal)
    requires v < INFINITY
    ensures HasPrecision(Body(v), ShortPrecision(v))
    ensures FromString(Body(v)) == Ok(Shown(v) * Pow10(PRECISION - ShortPrecision(v)))
  {
    ShortPrecisionRange(v);
    NormalizedIsCut(v);
    ShownIsHalfUp(v);
    BodyRounds(v, ShortPrecision(v), Shown(v));
  }

  lemma {:induction false} ShownIsHalfUp(v: Decimal)
    requires v < INFINITY
    ensures ShortPrecision(v) <= 2 && HalfUp(Normalized(v), ShortPrecision(v)) == Shown(v)
  {
    ShortPrecisionRange(v);
    NormalizedIsCut(v);
    HalfUpAfterCut(v, ShortPrecision(v), 3 * Magnitude(v));
  }

  lemma {:induction false} BodyRounds(v: Decimal, p: nat, n: nat)
    requires Normalized(v) != INFINITY && p == ShortPrecision(v) < PRECISION
    requires n == HalfUp(Normalized(v), p)
    ensures HasPrecision(Body(v), p) && FromString(Body(v)) == Ok(n * Pow10(PRECISION - p))
  {
    PrecisionPrint(Normalized(v), p);
  }

  /** What `shorten` prints is that number, commas, and the suffix. */
  lemma {:induction false} ShortenIsBody(v: Decimal)
    requires v < INFINITY
    ensures Shorten(v).Ok? && RemoveCommas(Shorten(v).value) == Body(v) + MAGNITUDES[Magnitude(v)]
  {
    NormalizedIsCut(v);
    var m, p := Magnitude(v), ShortPrecision(v);
    PrettifyOnlyGroups(Normalized(v), p);
    var pretty := Prettify(Normalized(v), p).value;
    RemoveCommasConcat(pretty, MAGNITUDES[m]);
    SuffixHasNoComma(m);
  }

  lemma {:induction false} SuffixHasNoComma(m: nat)
    requires m < |MAGNITUDES|
    ensures RemoveCommas(MAGNITUDES[m]) == MAGNITUDES[m]
  {
    assert ',' !in MAGNITUDES[m];
    RemoveNoCommas(MAGNITUDES[m]);
  }

  lemma {:induction false} HalfUpAfterCut(v: Decimal, p: nat, k: nat)
    requires p < PRECISION
    ensures v / Pow10(k) >= 0 && HalfUp(v / Pow10(k), p) == Nearest(v, Pow10(PRECISION - p + k))
  {
    Pow10Add(PRECISION - p, k);
    NearestAfterCut(v, Pow10(k), 5 * Pow10(PRECISION - p - 1), Pow10(PRECISION - p), Pow10(PRECISION - p + k));
  }

  lemma {:induction false} NormalizedIsCut(v: Decimal)
    requires v < INFINITY
    ensures Normalized(v) == v / Pow10(3 * Magnitude(v)) && Normalized(v) < INFINITY
  {
    DigitsIsPow10();
    Pow10Add(PRECISION, 3 * Magnitude(v));
    DivDigits(v, Pow10(3 * Magnitude(v)), Pow10(PRECISION + 3 * Magnitude(v)));
  }

  lemma DivDigits(v: nat, k: nat, w: nat)
    requires k > 0 && w == DIGITS * k
    ensures Div(v, w) == v / k && v / k <= v
  {
    assert v * DIGITS == DIGITS * v;
    DivScale(v, k, DIGITS);
    DivGalois(v, k, v + 1);
    MulMonotone(1, k, v + 1, v + 1);
  }

  lemma ShortenInfinity()
    ensures Shorten(INFINITY) == Ok("∞")
  {
    assert Pow10(0) == 1;
    DigitsIsPow10();
    assert CharacteristicLength(INFINITY) == 1 && Magnitude(INFINITY) == 0 && ShortPrecision(INFINITY) == 2;
    DivCancel(INFINITY, DIGITS);
    assert Normalized(INFINITY) == INFINITY;
    PrettifyInfinity(2);
    assert "∞" + MAGNITUDES[0] == "∞";
  }

  /**
   * Below the last suffix the integer part shown is below 1000, with one exception: just under the
   * next suffix it rounds up to "1,000" instead of moving on.
   */
  lemma {:induction false} ShortenCarry(v: Decimal)
    requires v < INFINITY && Magnitude(v) < 4
    ensures var shown := Shown(v) / Pow10(ShortPrecision(v));
            shown <= 1000 && (shown == 1000 <==> 2 * v >= 1999 * Pow10(PRECISION + 3 * Magnitude(v)))
  {
    var m, p := Magnitude(v), ShortPrecision(v);
    var u, r := Pow10(PRECISION + 3 * m), Pow10(PRECISION - p + 3 * m);
    ShortPrecisionRange(v);
    BelowMagnitude(v);
    Pow10Add(p, PRECISION - p + 3 * m);
    assert Pow10(0) == 1 && Pow10(1) == 10 && Pow10(2) == 100 && Pow10(3) == 1000;
    CarryBound(v, r, u, p);
  }

  /** 999,500 is shown as a thousand thousands. */
  lemma {:induction false} ShortenCarries(v: Decimal)
    requires v == 999_500 * DIGITS
    ensures Magnitude(v) == 1 && Shown(v) == 1000 && Shorten(v) == Ok("1,000K")
  {
    SixDigits(v);
    var n := Normalized(v);
    assert Pow10(3) == 1000;
    NormalizedIsCut(v);
    assert n == 999_500_000_000_000_000_000;
    ShownIsHalfUp(v);
    OneThousand(n);
    ShortenParts(v, "1,000");
    assert "1,000" + "K" == "1,000K";
  }

  lemma ShortenParts(v: Decimal, s: string)
    requires Prettify(Normalized(v), ShortPrecision(v)) == Ok(s)
    ensures Shorten(v) == Ok(s + MAGNITUDES[Magnitude(v)])
  {
  }

  const ONES: seq<string> := ["1.00", "1.00K", "1.00M", "1.00B", "1.00T"]

  /** A power of a thousand is shown as one, with two places and its own suffix. */
  lemma {:induction false} ShortenPower(m: nat)
    requires m <= 4
    ensures Shorten(Pow10(PRECISION + 3 * m)) == Ok(ONES[m])
  {
    var v := Pow10(PRECISION + 3 * m);
    PowerMagnitude(m, v);
    NormalizedPower(m, v);
    OneWithPlaces();
    ShortenParts(v, "1.00");
    WithSuffix(m);
  }

  lemma WithSuffix(m: nat)
    requires m <= 4
    ensures "1.00" + MAGNITUDES[m] == ONES[m]
  {
  }

  lemma {:induction false} PowerMagnitude(m: nat, v: nat)
    requires m <= 4 && v == Pow10(PRECISION + 3 * m)
    ensures v < INFINITY && Magnitude(v) == m && ShortPrecision(v) == 2
  {
    var n := Pow10(3 * m);
    Pow10Add(PRECISION, 3 * m);
    DigitsIsPow10();
    Pow10Monotone(3 * m, 12);
    Pow10Add(6, 6);
    assert Pow10(6) == 1_000_000;
    RoundsTo(v, n);
    LengthOfRounded(v);
    LengthOfPower(3 * m);
  }

  lemma {:induction false} NormalizedPower(m: nat, v: nat)
    requires v == Pow10(PRECISION + 3 * m) && v < INFINITY && Magnitude(v) == m
    ensures Normalized(v) == DIGITS
  {
    NormalizedIsCut(v);
    Pow10Add(PRECISION, 3 * m);
    DigitsIsPow10();
    DivCancel(DIGITS, Pow10(3 * m));
  }

  lemma {:induction false} LengthOfPower(n: nat)
    ensures |NatToString(Pow10(n))| == n + 1
  {
    NatToStringLength(Pow10(n), n + 1);
    if n > 0 {
      NatToStringLength(Pow10(n), n);
    }
  }

  lemma {:induction false} OneWithPlaces()
    ensures Prettify(DIGITS, 2) == Ok("1.00")
  {
    var m := 5_000_000_000_000_000;
    OneRounded();
    SixteenDigits(m);
    var padded := PadStart(NatToString(m), PRECISION);
    assert padded[..2] == "00";
    var s := "1" + "." + "00";
    assert CutString(1_005_000_000_000_000_000, 2) == s;
    IndexOfSplit("1", '.', "00");
    assert InsertCommas("1") == "1";
    assert s == "1.00";
  }

  lemma {:induction false} OneRounded()
    ensures RoundUp(DIGITS, 2) == 1_005_000_000_000_000_000
  {
    Pow10Add(5, 10);
    Pow10Add(5, 5);
    assert Pow10(5) == 100_000;
  }

  lemma {:induction false} SixteenDigits(m: nat)
    requires m == 5_000_000_000_000_000
    ensures |NatToString(m)| == 16
  {
    Pow10Add(5, 10);
    Pow10Add(5, 5);
    assert Pow10(5) == 100_000 && Pow10(16) == 10 * Pow10(15);
    NatToStringLength(m, 16);
    NatToStringLength(m, 15);
  }

  lemma {:induction false} SixDigits(v: Decimal)
    requires v == 999_500 * DIGITS
    ensures CharacteristicLength(v) == 6 && Magnitude(v) == 1 && ShortPrecision(v) == 0
  {
    RoundsTo(v, 999_500);
    LengthOfRounded(v);
    assert Pow10(5) == 100_000 && Pow10(6) == 1_000_000;
    NatToStringLength(999_500, 5);
    NatToStringLength(999_500, 6);
  }

  lemma {:induction false} OneThousand(n: Decimal)
    requires n == 999_500_000_000_000_000_000
    ensures HalfUp(n, 0) == 1000 && Prettify(n, 0) == Ok("1,000")
  {
    RoundsTo(n, 1000);
    RoundUpCut(n, 0);
    DigitsIsPow10();
    var s := ToString(n, Some(0)).value;
    PrintThousand();
    assert s == "1000";
    IndexOfMissing(s, '.');
  }

  lemma {:induction false} PrintThousand()
    ensures NatToString(1000) == "1000" && InsertCommas("1000") == "1,000"
  {
    assert NatToString(1) == "1" && NatToString(10) == "10" && NatToString(100) == "100";
    assert "1" + "000" == "1000" && InsertCommas("1") == "1";
    InsertCommasSplit("1", "000");
    ShortHasNoCommas("1");
  }

  lemma {:induction false} RoundsTo(v: Decimal, h: nat)
    requires 2 * v - DIGITS < 2 * (h * DIGITS) <= 2 * v + DIGITS
    ensures HalfUp(v, 0) == h
  {
    DigitsIsPow10();
    DivUnique(2 * v + DIGITS, 2 * DIGITS, h);
  }

  /** The integer part has at most three digits before the suffix, less one for each place shown. */
  lemma {:induction false} BelowMagnitude(v: Decimal)
    requires v < INFINITY && Magnitude(v) < 4
    ensures ShortPrecision(v) <= 2
    ensures 2 * v < 2 * (Pow10(PRECISION + 3 * Magnitude(v)) * Pow10(3 - ShortPrecision(v)))
  {
    CharacteristicRange(v);
    ShortPrecisionRange(v);
    BelowLength(v, CharacteristicLength(v), PRECISION + 3 * Magnitude(v), 3 - ShortPrecision(v));
  }

  lemma {:induction false} BelowLength(v: Decimal, l: nat, m: nat, n: nat)
    requires HalfUp(v, 0) < Pow10(l) && PRECISION + l == m + n
    ensures 2 * v < 2 * (Pow10(m) * Pow10(n))
  {
    NearestIsNearest(v, Pow10(PRECISION));
    Pow10Add(PRECISION, l);
    Pow10Add(m, n);
    RoundedBelow(v, HalfUp(v, 0), Pow10(PRECISION), Pow10(l));
  }

  lemma RoundedBelow(v: nat, h: nat, d: nat, bound: nat)
    requires 2 * v - d < 2 * (h * d) && h < bound
    ensures 2 * v < 2 * (d * bound)
  {
    MulLeft(d, h + 1, bound);
    assert d * (h + 1) == h * d + d;
  }

  lemma CarryBound(v: nat, r: nat, u: nat, p: nat)
    requires p <= 2 && r > 0 && u == Pow10(p) * r && 2 * v < 2 * (u * Pow10(3 - p))
    ensures Nearest(v, r) / Pow10(p) <= 1000
    ensures Nearest(v, r) / Pow10(p) == 1000 <==> 2 * v >= 1999 * u && p == 0
    ensures p > 0 ==> 2 * v < 1999 * u
  {
    assert Pow10(0) == 1 && Pow10(1) == 10 && Pow10(2) == 100 && Pow10(3) == 1000;
    var n := Nearest(v, r);
    NearestIsNearest(v, r);
    assert n * r == r * n;
    DivGalois(2 * v + r, 2 * r, 1000);
    DivGalois(2 * v + r, 2 * r, 1001);
    assert u * Pow10(3 - p) == 1000 * r;
  }
}
