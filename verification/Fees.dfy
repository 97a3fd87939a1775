/** Fee rates that decay by the minute (packages/lib-base/src/Fees.ts; constants.ts, lines 54-68). */
module FeeRates {
  import opened Arithmetic
  import opened Decimals
  import opened DecimalPrint
  import opened DecimalText
  import opened Digits
  import opened PowAccuracy
  import opened Wrappers

  const MINIMUM_BORROWING_RATE: Decimal := 5_000_000_000_000_000
  const MAXIMUM_BORROWING_RATE: Decimal := 50_000_000_000_000_000
  const MINIMUM_REDEMPTION_RATE: Decimal := 5_000_000_000_000_000

  /** The fields of a `Fees` object; dates are counts of milliseconds. */
  datatype FeesFields = FeesFields(
    baseRateWithoutDecay: Decimal,
    minuteDecayFactor: Decimal,
    beta: Decimal,
    lastFeeOperation: int,
    timeOfLatestBlock: int,
    recoveryMode: bool)

  /** The objects the constructor lets exist. */
  type Fees = f: FeesFields | f.minuteDecayFactor < ONE witness FeesFields(0, 0, 0, 0, 0, false)

  function SetRecoveryMode(f: Fees, recoveryMode: bool): Fees {
    f.(recoveryMode := recoveryMode)
  }

  function ElapsedMinutes(f: Fees, when: Option<int>): nat {
    var time := if when.Some? then when.value else f.timeOfLatestBlock;
    (if time > f.lastFeeOperation then time - f.lastFeeOperation else 0) / 60000
  }

  /** Fails, as `pow` does, more than 2^32 - 1 minutes after the last fee operation. */
  function BaseRate(f: Fees, when: Option<int>): Result<Decimal> {
    var minutes := ElapsedMinutes(f, when);
    if minutes <= MAX_EXPONENT then Ok(RateAfter(f, minutes)) else Err(AssertionFailed)
  }

  function RateAfter(f: Fees, minutes: nat): Decimal {
    Mul(PowValue(f.minuteDecayFactor, minutes), f.baseRateWithoutDecay)
  }

  function BorrowingRate(f: Fees, when: Option<int>): Result<Decimal> {
    if f.recoveryMode then Ok(ZERO) else
      match BaseRate(f, when)
      case Err(e) => Err(e)
      case Ok(rate) => Ok(Min(MINIMUM_BORROWING_RATE + rate, MAXIMUM_BORROWING_RATE))
  }

  function RedemptionRate(f: Fees, redeemedFraction: Decimal, when: Option<int>): Result<Decimal> {
    match BaseRate(f, when)
    case Err(e) => Err(e)
    case Ok(rate) =>
      var baseRate := if redeemedFraction != 0 then Div(redeemedFraction, f.beta) + rate else rate;
      Ok(Min(MINIMUM_REDEMPTION_RATE + baseRate, ONE))
  }

  /** The constants are what their decimal texts say. */
  lemma {:induction false} ConstantsAsWritten()
    ensures FromString("0.005") == Ok(MINIMUM_BORROWING_RATE) == Ok(MINIMUM_REDEMPTION_RATE)
    ensures FromString("0.05") == Ok(MAXIMUM_BORROWING_RATE)
  {
    ReadFive("0.005", 2);
    ReadFive("0.05", 1);
    assert Pow10(5) == 100000;
    Pow10Add(5, 5);
    Pow10Add(5, 10);
    assert Pow10(16) == 10 * Pow10(15);
  }

  lemma {:induction false} ReadFive(s: string, k: nat)
    requires k + 1 < PRECISION && s == "0." + (Zeros(k) + "5")
    ensures FromString(s) == Ok(5 * Pow10(PRECISION - (k + 1)))
  {
    var f := Zeros(k) + "5";
    assert "5"[..0] == "" && Value("5") == 5;
    LeftPadded("5", k);
    RightPadded(f, PRECISION - |f|);
    assert NatToString(0) == "0";
    ReadPrinted(s, 0, f, Fixed(0, f));
  }

  // ---------------------------------------------------------------- decay over time

  /** Elapsed whole minutes never fall as time passes. */
  lemma MinutesGrow(f: Fees, t1: int, t2: int)
    requires t1 <= t2
    ensures ElapsedMinutes(f, Some(t1)) <= ElapsedMinutes(f, Some(t2))
  {
  }

  /** Rates only fall with time; and while a later rate can be computed, so can an earlier one. */
  lemma {:induction false} RatesFall(f: Fees, redeemedFraction: Decimal, t1: int, t2: int)
    requires t1 <= t2 && BaseRate(f, Some(t2)).Ok?
    ensures BaseRate(f, Some(t1)).Ok? && BaseRate(f, Some(t2)).value <= BaseRate(f, Some(t1)).value
    ensures BorrowingRate(f, Some(t1)).Ok? && BorrowingRate(f, Some(t2)).Ok?
    ensures BorrowingRate(f, Some(t2)).value <= BorrowingRate(f, Some(t1)).value
    ensures RedemptionRate(f, redeemedFraction, Some(t1)).Ok? && RedemptionRate(f, redeemedFraction, Some(t2)).Ok?
    ensures RedemptionRate(f, redeemedFraction, Some(t2)).value <= RedemptionRate(f, redeemedFraction, Some(t1)).value
  {
    var m, n, b := ElapsedMinutes(f, Some(t1)), ElapsedMinutes(f, Some(t2)), f.baseRateWithoutDecay;
    MinutesGrow(f, t1, t2);
    PowMonotoneInExponent(f.minuteDecayFactor, m, n);
    MulMonotone(PowValue(f.minuteDecayFactor, n), PowValue(f.minuteDecayFactor, m), b, b);
    DivMonotone(PowValue(f.minuteDecayFactor, n) * b, PowValue(f.minuteDecayFactor, m) * b, DIGITS);
  }

  /** Before a full minute has passed, and at any time before the last fee operation, nothing has decayed. */
  lemma {:induction false} NoDecayInFirstMinute(f: Fees, when: int)
    requires when < f.lastFeeOperation + 60000
    ensures BaseRate(f, Some(when)) == Ok(f.baseRateWithoutDecay)
  {
    DivCancel(f.baseRateWithoutDecay, DIGITS);
  }

  /** The decayed rate lies between zero and the undecayed rate. */
  lemma {:induction false} BaseRateRange(f: Fees, when: Option<int>)
    requires BaseRate(f, when).Ok?
    ensures 0 <= BaseRate(f, when).value <= f.baseRateWithoutDecay
  {
    var n, b := ElapsedMinutes(f, when), f.baseRateWithoutDecay;
    PowMonotoneInExponent(f.minuteDecayFactor, 0, n);
    MulMonotone(PowValue(f.minuteDecayFactor, n), ONE, b, b);
    DivMonotone(PowValue(f.minuteDecayFactor, n) * b, ONE * b, DIGITS);
    DivCancel(b, DIGITS);
  }

  /** The exactly decayed rate, in units of 10^-18. */
  function ExactDecay(f: Fees, minutes: nat): real {
    Decayed(f.baseRateWithoutDecay, RealPower(Real(f.minuteDecayFactor), minutes))
  }

  function Decayed(rate: Decimal, factor: real): real {
    rate as real * factor
  }

  /** Multiplying a decay factor known up to `e` units by a rate of at most 1.0, and truncating. */
  lemma TruncatedProductError(p: Decimal, b: Decimal, q: real, e: real)
    requires b <= ONE && Near(p, q * DIGITS as real, e)
    ensures Within(Mul(p, b) as real, Decayed(b, q), e + 1.0)
  {
    var d, m, x, y := DIGITS as real, Mul(p, b) as real, p as real, b as real;
    DivBounds(p * b, DIGITS);
    assert (p * b) as real == x * y;
    ScaledBound(x - q * d, e, y, d);
    assert (x - q * d) * y == x * y - d * (y * q);
    assert d * m <= x * y < d * m + d;
  }

  /** How far `minutes` of computed decay may be from exact decay. */
  function DecayError(minutes: nat): real {
    (minutes - 1) as real / 2.0 + 1.0
  }

  lemma {:induction false} RateAfterAccuracy(f: Fees, n: nat)
    requires f.baseRateWithoutDecay <= ONE && n >= 1
    ensures Within(RateAfter(f, n) as real, ExactDecay(f, n), DecayError(n))
  {
    var p, e := PowValue(f.minuteDecayFactor, n), (n - 1) as real / 2.0;
    PowError(f.minuteDecayFactor, n);
    assert Near(p, Exact(f.minuteDecayFactor, n), e);
    TruncatedProductError(p, f.baseRateWithoutDecay, RealPower(Real(f.minuteDecayFactor), n), e);
  }

  /** The computed rate is within `(n - 1) / 2 + 1` units of exact exponential decay. */
  lemma {:induction false} BaseRateAccuracy(f: Fees, when: Option<int>)
    requires BaseRate(f, when).Ok? && f.baseRateWithoutDecay <= ONE && ElapsedMinutes(f, when) >= 1
    ensures var n := ElapsedMinutes(f, when);
            Within(BaseRate(f, when).value as real, ExactDecay(f, n), (n - 1) as real / 2.0 + 1.0)
  {
    RateAfterAccuracy(f, ElapsedMinutes(f, when));
  }

  /** A fee operation at `when` that leaves the rate as it is then restarts the clock. */
  function Restarted(f: Fees, when: int): Fees
    requires BaseRate(f, Some(when)).Ok?
  {
    f.(baseRateWithoutDecay := BaseRate(f, Some(when)).value, lastFeeOperation := when)
  }

  /** Decay over an interval split by such an operation drifts by at most `n + m + 1.5` units. */
  lemma {:induction false} SplitDecay(f: Fees, n: nat, m: nat)
    requires f.baseRateWithoutDecay <= ONE && n >= 1 && m >= 1 && n + m <= MAX_EXPONENT
    ensures var t1, t2 := f.lastFeeOperation + 60000 * n, f.lastFeeOperation + 60000 * (n + m);
            && BaseRate(f, Some(t1)).Ok? && BaseRate(f, Some(t2)).Ok?
            && BaseRate(Restarted(f, t1), Some(t2)).Ok?
            && Within(BaseRate(Restarted(f, t1), Some(t2)).value as real, BaseRate(f, Some(t2)).value as real,
                      (n + m) as real + 1.5)
  {
    var t1, t2 := f.lastFeeOperation + 60000 * n, f.lastFeeOperation + 60000 * (n + m);
    assert ElapsedMinutes(f, Some(t1)) == n && ElapsedMinutes(f, Some(t2)) == n + m;
    var g := Restarted(f, t1);
    assert ElapsedMinutes(g, Some(t2)) == m;
    BaseRateRange(f, Some(t1));
    SplitError(f, g, n, m);
  }

  lemma {:induction false} SplitError(f: Fees, g: Fees, n: nat, m: nat)
    requires f.baseRateWithoutDecay <= ONE && n >= 1 && m >= 1
    requires g.baseRateWithoutDecay == RateAfter(f, n) <= ONE && g.minuteDecayFactor == f.minuteDecayFactor
    ensures Within(RateAfter(g, m) as real, RateAfter(f, n + m) as real, (n + m) as real + 1.5)
  {
    RateAfterAccuracy(f, n);
    RateAfterAccuracy(f, n + m);
    RateAfterAccuracy(g, m);
    DecayOn(f, g, n, m, DecayError(n));
    Triangle(RateAfter(g, m) as real, ExactDecay(g, m), ExactDecay(f, n + m), RateAfter(f, n + m) as real,
             DecayError(m), DecayError(n), DecayError(n + m));
    assert DecayError(m) + DecayError(n) + DecayError(n + m) == (n + m) as real + 1.5;
  }

  lemma {:induction false} DecayOn(f: Fees, g: Fees, n: nat, m: nat, e: real)
    requires g.minuteDecayFactor == f.minuteDecayFactor
    requires Within(g.baseRateWithoutDecay as real, ExactDecay(f, n), e)
    ensures Within(ExactDecay(g, m), ExactDecay(f, n + m), e)
  {
    var r := Real(f.minuteDecayFactor);
    RealPowerAdd(r, n, m);
    RealPowerUnit(r, m);
    DecayAfterError(f.baseRateWithoutDecay, g.baseRateWithoutDecay,
                    RealPower(r, n), RealPower(r, m), RealPower(r, n + m), e);
  }

  lemma Triangle(x: real, y: real, z: real, w: real, e1: real, e2: real, e3: real)
    requires Within(x, y, e1) && Within(y, z, e2) && Within(w, z, e3)
    ensures Within(x, w, e1 + e2 + e3)
  {
  }

  /** An error in the rate does not grow by further decay. */
  lemma DecayAfterError(b: Decimal, c: Decimal, p: real, q: real, w: real, e: real)
    requires Within(c as real, Decayed(b, p), e) && 0.0 <= q <= 1.0 && w == p * q
    ensures Within(Decayed(c, q), Decayed(b, w), e)
  {
    ScaledBound(c as real - b as real * p, e, q, 1.0);
    assert b as real * w == (b as real * p) * q;
  }

  // ---------------------------------------------------------------- ranges

  /** Zero exactly in recovery mode, and otherwise between 0.5% and 5%. */
  lemma BorrowingRateRange(f: Fees, when: Option<int>)
    requires BorrowingRate(f, when).Ok?
    ensures BorrowingRate(f, when).value == ZERO <==> f.recoveryMode
    ensures !f.recoveryMode ==>
              MINIMUM_BORROWING_RATE <= BorrowingRate(f, when).value <= MAXIMUM_BORROWING_RATE
  {
  }

  lemma RedemptionRateRange(f: Fees, redeemedFraction: Decimal, when: Option<int>)
    requires RedemptionRate(f, redeemedFraction, when).Ok?
    ensures MINIMUM_REDEMPTION_RATE <= RedemptionRate(f, redeemedFraction, when).value <= ONE
  {
  }

  /** The borrowing rate is the base rate on top of 0.5%, up to where that reaches 5%. */
  lemma BorrowingRateParts(f: Fees, when: Option<int>)
    requires BaseRate(f, when).Ok? && !f.recoveryMode
    ensures var r, base := BorrowingRate(f, when).value, BaseRate(f, when).value;
            && BorrowingRate(f, when).Ok? && (r == MAXIMUM_BORROWING_RATE <==> base >= 45_000_000_000_000_000)
            && (r < MAXIMUM_BORROWING_RATE ==> r - base == MINIMUM_BORROWING_RATE)
  {
  }

  /**
   * Below 100%, what the redemption rate has on top of 0.5% and the base rate is the redeemed fraction
   * over beta, truncated.
   */
  lemma RedemptionRateParts(f: Fees, fraction: Decimal, when: Option<int>)
    requires BaseRate(f, when).Ok? && f.beta > 0
    ensures var r, base := RedemptionRate(f, fraction, when), BaseRate(f, when).value;
            && r.Ok? && (r.value < ONE ==>
                 var extra := r.value - base - MINIMUM_REDEMPTION_RATE;
                 0 <= extra && extra * f.beta <= fraction * DIGITS < (extra + 1) * f.beta)
  {
    DivBounds(fraction * DIGITS, f.beta);
    var q := fraction * DIGITS / f.beta;
    assert f.beta * q == q * f.beta && (q + 1) * f.beta == q * f.beta + f.beta;
    DivGalois(fraction * DIGITS, f.beta, 0);
  }

  /** The redemption rate is 100% exactly if the redeemed fraction makes up for what the base rate leaves. */
  lemma RedemptionRateCap(f: Fees, fraction: Decimal, when: Option<int>)
    requires BaseRate(f, when).Ok? && f.beta > 0
    ensures var r, base := RedemptionRate(f, fraction, when), BaseRate(f, when).value;
            r.Ok? && (r.value == ONE <==> (ONE - MINIMUM_REDEMPTION_RATE - base) * f.beta <= fraction * DIGITS)
  {
    var k := ONE - MINIMUM_REDEMPTION_RATE - BaseRate(f, when).value;
    DivGalois(fraction * DIGITS, f.beta, k);
    assert f.beta * k == k * f.beta;
  }

  /** With no beta any redemption costs everything; redeeming nothing costs the base rate and 0.5%, up to 100%. */
  lemma RedemptionRateWithoutBeta(f: Fees, fraction: Decimal, when: Option<int>)
    requires BaseRate(f, when).Ok?
    ensures f.beta == 0 && fraction > 0 ==> RedemptionRate(f, fraction, when) == Ok(ONE)
    ensures var r, plain := RedemptionRate(f, 0, when), MINIMUM_REDEMPTION_RATE + BaseRate(f, when).value;
            r == Ok(if plain < ONE then plain else ONE)
  {
  }

  /** Full minutes from the last fee operation to the given time, by default that of the latest block. */
  lemma ElapsedIsFullMinutes(f: Fees, when: Option<int>)
    ensures var time := if when == None then f.timeOfLatestBlock else when.value;
            var minutes := ElapsedMinutes(f, when);
            if time < f.lastFeeOperation then minutes == 0
            else minutes * 60000 <= time - f.lastFeeOperation < (minutes + 1) * 60000
  {
  }

  /** Setting the recovery mode touches the borrowing rate only. */
  lemma RecoveryModeOnlyBorrowing(f: Fees, mode: bool, fraction: Decimal, when: Option<int>)
    ensures var g := SetRecoveryMode(f, mode);
            && BaseRate(g, when) == BaseRate(f, when)
            && RedemptionRate(g, fraction, when) == RedemptionRate(f, fraction, when)
            && (mode ==> BorrowingRate(g, when) == Ok(ZERO))
            && (mode == f.recoveryMode ==> g == f)
  {
  }

  /** Redeeming a larger fraction never lowers the redemption rate. */
  lemma RedemptionRateGrows(f: Fees, fraction: Decimal, larger: Decimal, when: Option<int>)
    requires fraction <= larger && BaseRate(f, when).Ok?
    ensures RedemptionRate(f, fraction, when).Ok? && RedemptionRate(f, larger, when).Ok?
    ensures RedemptionRate(f, fraction, when).value <= RedemptionRate(f, larger, when).value
  {
    if f.beta > 0 {
      DivMonotone(fraction * DIGITS, larger * DIGITS, f.beta);
    }
  }

  /** When fees can be computed at all, whatever the mode. */
  lemma FeesFail(f: Fees, fraction: Decimal, when: Option<int>)
    ensures BaseRate(f, when).Err? <==> ElapsedMinutes(f, when) > MAX_EXPONENT
    ensures BorrowingRate(f, when).Err? <==> BaseRate(f, when).Err? && !f.recoveryMode
    ensures RedemptionRate(f, fraction, when).Err? <==> BaseRate(f, when).Err?
  {
  }
}
