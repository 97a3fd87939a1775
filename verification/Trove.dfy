/** Troves, and the changes between them (packages/lib-base/src/Trove.ts; constants.ts, lines 8-22). */
module Troves {
  import opened Arithmetic
  import opened DecimalPrint
  import opened Decimals
  import opened DecimalText
  import opened Digits
  import opened Wrappers

  const LUSD_LIQUIDATION_RESERVE: Decimal := 100_000_000_000_000_000
  const MINIMUM_COLLATERAL_RATIO: Decimal := 1_100_000_000_000_000_000
  const CRITICAL_COLLATERAL_RATIO: Decimal := 1_500_000_000_000_000_000

  datatype Trove = Trove(collateral: Decimal, debt: Decimal) {

    predicate IsEmpty() {
      collateral == 0 && debt == 0
    }

    function NetDebt(): Result<Decimal> {
      if debt < LUSD_LIQUIDATION_RESERVE then Err(DebtBelowReserve) else Sub(debt, LUSD_LIQUIDATION_RESERVE)
    }

    function CollateralRatio(price: Decimal): Decimal {
      MulDiv(collateral, price, debt)
    }

    predicate IsBelowMinimum(price: Decimal) {
      CollateralRatio(price) < MINIMUM_COLLATERAL_RATIO
    }

    predicate IsBelowCritical(price: Decimal) {
      CollateralRatio(price) < CRITICAL_COLLATERAL_RATIO
    }

    function Add(that: Trove): Trove {
      Trove(collateral + that.collateral, debt + that.debt)
    }

    function Subtract(that: Trove): Trove {
      Trove(Less(collateral, that.collateral), Less(debt, that.debt))
    }

    function Multiply(multiplier: Decimal): Trove {
      Trove(Mul(collateral, multiplier), Mul(debt, multiplier))
    }
  }

  const EMPTY := Trove(0, 0)

  /** Subtraction that stops at zero. */
  function Less(a: Decimal, b: Decimal): Decimal {
    if a > b then a - b else 0
  }

  /** The constants are what their decimal texts say. */
  lemma {:induction false} ConstantsAsWritten()
    ensures FromString("1.5") == Ok(CRITICAL_COLLATERAL_RATIO) && FromString("1.1") == Ok(MINIMUM_COLLATERAL_RATIO)
    ensures FromString("0.1") == Ok(LUSD_LIQUIDATION_RESERVE)
  {
    assert NatToString(1) == "1" && NatToString(0) == "0";
    assert "1" + "." + "5" == "1.5" && "1" + "." + "1" == "1.1" && "0" + "." + "1" == "0.1";
    Tenths(1, 5, "5");
    Tenths(1, 1, "1");
    Tenths(0, 1, "1");
  }

  lemma {:induction false} Tenths(c: nat, d: nat, f: string)
    requires d < 10 && f == [DigitChar(d)]
    ensures FromString(NatToString(c) + "." + f) == Ok(c * DIGITS + d * 100_000_000_000_000_000)
  {
    assert f[..0] == "" && Value(f) == d;
    RightPadded(f, PRECISION - 1);
    DigitsIsPow10();
    assert Pow10(PRECISION) == 10 * Pow10(PRECISION - 1);
    ReadPrinted(NatToString(c) + "." + f, c, f, Fixed(c, f));
  }

  datatype Status = NonExistent | Open | ClosedByOwner | ClosedByLiquidation | ClosedByRedemption

  datatype UserTrove = UserTrove(owner: string, status: Status, trove: Trove)

  datatype PendingTrove = PendingTrove(user: UserTrove, stake: Decimal, snapshot: Trove) {

    /** The trove with its share of what was redistributed since its snapshot. */
    function ApplyRedistribution(totalRedistributed: Trove): UserTrove {
      user.(trove := user.trove.Add(totalRedistributed.Subtract(snapshot).Multiply(stake)))
    }
  }

  /** A ratio is below a threshold exactly if the collateral's value is; without debt it never is. */
  lemma RatioThreshold(t: Trove, price: Decimal, threshold: Decimal)
    requires threshold <= INFINITY
    ensures t.CollateralRatio(price) < threshold <==> t.debt > 0 && t.collateral * price < threshold * t.debt
  {
    if t.debt > 0 {
      DivGalois(t.collateral * price, t.debt, threshold);
      assert t.debt * threshold == threshold * t.debt;
    }
  }

  /** A stake's share of `total - snapshot`, by component. */
  function Share(stake: Decimal, snapshot: Decimal, total: Decimal): Decimal {
    Mul(Less(total, snapshot), stake)
  }

  /** No more of either in `t` than in `u`. */
  predicate AtMost(t: Trove, u: Trove) {
    t.collateral <= u.collateral && t.debt <= u.debt
  }

  /** Redistributing more never leaves a trove with less, and redistributing nothing leaves it alone. */
  lemma RedistributionGrows(p: PendingTrove, total: Trove, larger: Trove)
    requires AtMost(total, larger)
    ensures AtMost(p.ApplyRedistribution(total).trove, p.ApplyRedistribution(larger).trove)
    ensures AtMost(p.user.trove, p.ApplyRedistribution(total).trove)
    ensures AtMost(total, p.snapshot) ==> p.ApplyRedistribution(total) == p.user
  {
    ShareGrows(p.stake, p.snapshot.collateral, total.collateral, larger.collateral);
    ShareGrows(p.stake, p.snapshot.debt, total.debt, larger.debt);
  }

  lemma ShareGrows(stake: Decimal, snapshot: Decimal, total: Decimal, larger: Decimal)
    requires total <= larger
    ensures 0 <= Share(stake, snapshot, total) <= Share(stake, snapshot, larger)
    ensures total <= snapshot ==> Share(stake, snapshot, total) == 0
  {
    var x, y := Less(total, snapshot) * stake, Less(larger, snapshot) * stake;
    MulMonotone(Less(total, snapshot), Less(larger, snapshot), stake, stake);
    DivMonotone(x, y, DIGITS);
  }

  /** Collecting at `middle`, and at `total` what came since, gives at most one unit less of each than at once. */
  lemma RedistributionInTwoSteps(p: PendingTrove, middle: Trove, total: Trove)
    requires AtMost(p.snapshot, middle) && AtMost(middle, total)
    ensures var once := p.ApplyRedistribution(total);
            var twice := p.(user := p.ApplyRedistribution(middle), snapshot := middle).ApplyRedistribution(total);
            && twice.owner == once.owner && twice.status == once.status
            && AtMost(twice.trove, once.trove) && AtMost(once.trove, twice.trove.Add(Trove(1, 1)))
  {
    ShareInTwoSteps(p.stake, p.snapshot.collateral, middle.collateral, total.collateral);
    ShareInTwoSteps(p.stake, p.snapshot.debt, middle.debt, total.debt);
  }

  lemma ShareInTwoSteps(stake: Decimal, snapshot: Decimal, middle: Decimal, total: Decimal)
    requires snapshot <= middle <= total
    ensures var twice := Share(stake, snapshot, middle) + Share(stake, middle, total);
            twice <= Share(stake, snapshot, total) <= twice + 1
  {
    var x, y := (middle - snapshot) * stake, (total - middle) * stake;
    assert (total - snapshot) * stake == x + y;
    DivBounds(x, DIGITS);
    DivBounds(y, DIGITS);
    DivBounds(x + y, DIGITS);
  }

  /** What is due to a stake, in units of 10^-36: that much of what was redistributed since its snapshot. */
  function Due(stake: Decimal, snapshot: Decimal, total: Decimal): nat {
    if total > snapshot then stake * (total - snapshot) else 0
  }

  predicate Truncates(gained: int, due: nat) {
    gained * DIGITS <= due < (gained + 1) * DIGITS
  }

  lemma ShareIsDue(stake: Decimal, snapshot: Decimal, total: Decimal)
    ensures Truncates(Share(stake, snapshot, total), Due(stake, snapshot, total))
  {
    DivBounds(Less(total, snapshot) * stake, DIGITS);
    assert Less(total, snapshot) * stake == Due(stake, snapshot, total);
  }

  /** A trove gains what is due to its stake, truncated, and stays whose and what it is. */
  lemma RedistributionIs(p: PendingTrove, total: Trove)
    ensures var after := p.ApplyRedistribution(total);
            && after.owner == p.user.owner && after.status == p.user.status
            && Truncates(after.trove.collateral - p.user.trove.collateral,
                         Due(p.stake, p.snapshot.collateral, total.collateral))
            && Truncates(after.trove.debt - p.user.trove.debt, Due(p.stake, p.snapshot.debt, total.debt))
  {
    ShareIsDue(p.stake, p.snapshot.collateral, total.collateral);
    ShareIsDue(p.stake, p.snapshot.debt, total.debt);
  }

  datatype Amounts = Amounts(collateral: int, debt: int)

  /** What all the troves gain together. */
  function Gained(ps: seq<PendingTrove>, total: Trove): Amounts {
    if ps == [] then Amounts(0, 0) else
      var p, rest := ps[|ps| - 1], Gained(ps[..|ps| - 1], total);
      var before, after := p.user.trove, p.ApplyRedistribution(total).trove;
      Amounts(rest.collateral + after.collateral - before.collateral, rest.debt + after.debt - before.debt)
  }

  /** What is due to all of them. */
  function DueTo(ps: seq<PendingTrove>, total: Trove): Amounts {
    if ps == [] then Amounts(0, 0) else
      var p, rest := ps[|ps| - 1], DueTo(ps[..|ps| - 1], total);
      Amounts(rest.collateral + Due(p.stake, p.snapshot.collateral, total.collateral),
              rest.debt + Due(p.stake, p.snapshot.debt, total.debt))
  }

  /** All troves together never gain more than is due, and less by under a unit each. */
  lemma {:induction false} RedistributionConserves(ps: seq<PendingTrove>, total: Trove)
    ensures var gained, due := Gained(ps, total), DueTo(ps, total);
            && gained.collateral * DIGITS <= due.collateral <= gained.collateral * DIGITS + |ps| * (DIGITS - 1)
            && gained.debt * DIGITS <= due.debt <= gained.debt * DIGITS + |ps| * (DIGITS - 1)
  {
    if ps != [] {
      RedistributionConserves(ps[..|ps| - 1], total);
      RedistributionIs(ps[|ps| - 1], total);
    }
  }

  function TotalStake(ps: seq<PendingTrove>): nat {
    if ps == [] then 0 else TotalStake(ps[..|ps| - 1]) + ps[|ps| - 1].stake
  }

  /** To troves with one snapshot is due what is due to all their stakes. */
  lemma {:induction false} DueToTotalStake(ps: seq<PendingTrove>, snapshot: Trove, total: Trove)
    requires forall p :: p in ps ==> p.snapshot == snapshot
    ensures DueTo(ps, total) == Amounts(Due(TotalStake(ps), snapshot.collateral, total.collateral),
                                        Due(TotalStake(ps), snapshot.debt, total.debt))
  {
    if ps != [] {
      var p, rest := ps[|ps| - 1], ps[..|ps| - 1];
      DueToTotalStake(rest, snapshot, total);
      assert p in ps;
      DueOfSum(TotalStake(rest), p.stake, snapshot.collateral, total.collateral);
      DueOfSum(TotalStake(rest), p.stake, snapshot.debt, total.debt);
    }
  }

  lemma DueOfSum(s: nat, t: nat, snapshot: Decimal, total: Decimal)
    ensures Due(s + t, snapshot, total) == Due(s, snapshot, total) + Due(t, snapshot, total)
  {
  }

  // ---------------------------------------------------------------- changes

  function ApplyFee(borrowingRate: Decimal, debtIncrease: Decimal): Decimal {
    Mul(debtIncrease, ONE + borrowingRate)
  }

  function UnapplyFee(borrowingRate: Decimal, debtIncrease: Decimal): Decimal {
    DivCeil(debtIncrease, ONE + borrowingRate)
  }

  datatype Params = Params(
    depositCollateral: Option<Decimal>,
    withdrawCollateral: Option<Decimal>,
    borrowLUSD: Option<Decimal>,
    repayLUSD: Option<Decimal>)

  datatype Zeroed = ZeroCollateral | ZeroDebt

  datatype TroveChange =
    | InvalidCreation(invalidTrove: Trove)
    | Creation(depositCollateral: Decimal, borrowLUSD: Decimal)
    | Closure(withdrawCollateral: Decimal, repayLUSD: Option<Decimal>)
    | Adjustment(params: Params, setToZero: Option<Zeroed>)

  function DebtChange(a: Trove, b: Trove, borrowingRate: Decimal): Params {
    if b.debt > a.debt then Params(None, None, Some(UnapplyFee(borrowingRate, b.debt - a.debt)), None)
    else Params(None, None, None, Some(a.debt - b.debt))
  }

  function CollateralChange(a: Trove, b: Trove): Params {
    if b.collateral > a.collateral then Params(Some(b.collateral - a.collateral), None, None, None)
    else Params(None, Some(a.collateral - b.collateral), None, None)
  }

  function WhatChanged(a: Trove, b: Trove, borrowingRate: Decimal): Result<Option<TroveChange>> {
    if a.collateral == b.collateral && a.debt == b.debt then
      Ok(None)
    else if a.IsEmpty() then
      if b.debt < LUSD_LIQUIDATION_RESERVE then
        Ok(Some(InvalidCreation(b)))
      else
        match b.NetDebt()
        case Err(e) => Err(e)
        case Ok(net) => Ok(Some(Creation(b.collateral, UnapplyFee(borrowingRate, net))))
    else if b.IsEmpty() then
      match a.NetDebt()
      case Err(e) => Err(e)
      case Ok(net) => Ok(Some(Closure(a.collateral, if net != 0 then Some(net) else None)))
    else if a.collateral == b.collateral then
      Ok(Some(Adjustment(DebtChange(a, b, borrowingRate), if b.debt == 0 then Some(ZeroDebt) else None)))
    else if a.debt == b.debt then
      Ok(Some(Adjustment(CollateralChange(a, b), if b.collateral == 0 then Some(ZeroCollateral) else None)))
    else
      var debt, collateral := DebtChange(a, b, borrowingRate), CollateralChange(a, b);
      Ok(Some(Adjustment(
        Params(collateral.depositCollateral, collateral.withdrawCollateral, debt.borrowLUSD, debt.repayLUSD),
        if b.debt == 0 then Some(ZeroDebt) else if b.collateral == 0 then Some(ZeroCollateral) else None)))
  }

  function OrZero(d: Option<Decimal>): Decimal {
    match d
    case Some(v) => v
    case None => ZERO
  }

  function Apply(a: Trove, change: Option<TroveChange>, borrowingRate: Decimal): Result<Trove> {
    match change
    case None => Ok(a)
    case Some(InvalidCreation(t)) =>
      if !a.IsEmpty() then Err(TroveExists) else Ok(t)
    case Some(Creation(deposit, borrow)) =>
      if !a.IsEmpty() then Err(TroveExists)
      else Ok(Trove(deposit, LUSD_LIQUIDATION_RESERVE + ApplyFee(borrowingRate, borrow)))
    case Some(Closure(_, _)) =>
      if a.IsEmpty() then Err(TroveMissing) else Ok(EMPTY)
    case Some(Adjustment(params, setToZero)) =>
      var collateralDecrease, collateralIncrease := OrZero(params.withdrawCollateral), OrZero(params.depositCollateral);
      var debtDecrease := OrZero(params.repayLUSD);
      var debtIncrease := if params.borrowLUSD.Some? then ApplyFee(borrowingRate, params.borrowLUSD.value) else ZERO;
      Ok(match setToZero
         case Some(ZeroCollateral) => Trove(0, Less(a.debt + debtIncrease, debtDecrease))
         case Some(ZeroDebt) => Trove(Less(a.collateral + collateralIncrease, collateralDecrease), 0)
         case None =>
           a.Add(Trove(collateralIncrease, debtIncrease)).Subtract(Trove(collateralDecrease, debtDecrease)))
  }

  /** By how much borrowing `debtIncrease` through the fee may overshoot. */
  function FeeSlack(borrowingRate: Decimal): nat {
    (ONE + borrowingRate - 1) / ONE
  }

  /** Taking the fee off, rounded up, and putting it on again, rounded down, never falls short. */
  lemma FeeRoundTrip(borrowingRate: Decimal, debtIncrease: Decimal)
    ensures var t := ApplyFee(borrowingRate, UnapplyFee(borrowingRate, debtIncrease));
            debtIncrease <= t <= debtIncrease + FeeSlack(borrowingRate)
  {
    var f := ONE + borrowingRate;
    var q := DivCeil(debtIncrease, f);
    DivBounds(debtIncrease * DIGITS + (f - 1), f);
    assert f * q == q * f;
    DivMonotone(debtIncrease * DIGITS, q * f, DIGITS);
    DivMonotone(q * f, (f - 1) + debtIncrease * DIGITS, DIGITS);
    DivAddMultiple(f - 1, debtIncrease, DIGITS);
    DivCancel(debtIncrease, DIGITS);
  }

  /** Whether the fee round trip is exact: the ceiling adds less than 1.0 to the product. */
  predicate FeeExact(borrowingRate: Decimal, debtIncrease: Decimal) {
    var f := ONE + borrowingRate;
    var rest := debtIncrease * DIGITS % f;
    rest == 0 || f - rest < ONE
  }

  lemma FeeRoundTripExact(borrowingRate: Decimal, debtIncrease: Decimal)
    ensures Refeed(borrowingRate, debtIncrease) == debtIncrease <==> FeeExact(borrowingRate, debtIncrease)
  {
    var f := ONE + borrowingRate;
    var n := debtIncrease * DIGITS;
    var q, rest := n / f, n % f;
    assert n == f * q + rest;
    if rest == 0 {
      DivUnique(n + (f - 1), f, q);
      assert q * f == n;
      DivCancel(debtIncrease, DIGITS);
    } else {
      assert f * (q + 1) == n - rest + f;
      DivUnique(n + (f - 1), f, q + 1);
      assert (q + 1) * f == (f - rest) + debtIncrease * DIGITS;
      DivAddMultiple(f - rest, debtIncrease, DIGITS);
      DivGalois(f - rest, DIGITS, 1);
    }
  }

  /** The debt that a change from `a` to `b` borrows through the fee. */
  function Borrowed(a: Trove, b: Trove): Decimal {
    if a.IsEmpty() then Less(b.debt, LUSD_LIQUIDATION_RESERVE)
    else if b.IsEmpty() then 0
    else Less(b.debt, a.debt)
  }

  /** `debtIncrease` with the fee taken off and put on again. */
  function Refeed(borrowingRate: Decimal, debtIncrease: Decimal): Decimal {
    ApplyFee(borrowingRate, UnapplyFee(borrowingRate, debtIncrease))
  }

  lemma RefeedNothing(borrowingRate: Decimal)
    ensures Refeed(borrowingRate, 0) == 0
  {
    var f := ONE + borrowingRate;
    DivUnique(0 * DIGITS + (f - 1), f, 0);
  }

  /** At most one unit for rates up to 100%, and nothing at rate 0. */
  lemma FeeSlackBound(borrowingRate: Decimal)
    ensures borrowingRate == 0 ==> FeeSlack(borrowingRate) == 0
    ensures borrowingRate <= ONE ==> FeeSlack(borrowingRate) <= 1
    ensures FeeSlack(borrowingRate) * ONE < ONE + borrowingRate
  {
  }

  /** What applying a change gives: all of `b`, but for what the fee does to the borrowed part. */
  lemma ChangeApplied(a: Trove, b: Trove, borrowingRate: Decimal)
    requires WhatChanged(a, b, borrowingRate).Ok? && a != b
    ensures var t := Apply(a, WhatChanged(a, b, borrowingRate).value, borrowingRate);
            && t.Ok? && t.value.collateral == b.collateral
            && t.value.debt + Borrowed(a, b) == b.debt + Refeed(borrowingRate, Borrowed(a, b))
  {
    RefeedNothing(borrowingRate);
    if Borrowed(a, b) > 0 {
      FeeRoundTrip(borrowingRate, Borrowed(a, b));
    }
  }

  /**
   * Applying what changed from `a` to `b` onto `a` gives `b`, with the same collateral and a debt that
   * overshoots by at most the slack; and this can be asked of all pairs but a closure of a trove whose
   * debt is below the reserve.
   */
  lemma ChangeRoundTrip(a: Trove, b: Trove, borrowingRate: Decimal)
    ensures WhatChanged(a, b, borrowingRate).Err? <==>
            !a.IsEmpty() && b.IsEmpty() && a.debt < LUSD_LIQUIDATION_RESERVE
    ensures var change := WhatChanged(a, b, borrowingRate);
            change.Ok? ==>
              var t := Apply(a, change.value, borrowingRate);
              t.Ok? && t.value.collateral == b.collateral
              && b.debt <= t.value.debt <= b.debt + FeeSlack(borrowingRate)
  {
    if WhatChanged(a, b, borrowingRate).Ok? && a != b {
      ChangeApplied(a, b, borrowingRate);
      FeeRoundTrip(borrowingRate, Borrowed(a, b));
    }
  }

  /** It gives exactly `b` exactly if the fee round trip of the borrowed part is exact. */
  lemma ChangeRoundTripExact(a: Trove, b: Trove, borrowingRate: Decimal)
    requires WhatChanged(a, b, borrowingRate).Ok? && a != b
    ensures Apply(a, WhatChanged(a, b, borrowingRate).value, borrowingRate) == Ok(b)
            <==> FeeExact(borrowingRate, Borrowed(a, b))
  {
    ChangeApplied(a, b, borrowingRate);
    FeeRoundTripExact(borrowingRate, Borrowed(a, b));
  }

  /** At rate 0 the round trip is exact. */
  lemma ChangeRoundTripWithoutFee(a: Trove, b: Trove)
    ensures WhatChanged(a, b, 0).Ok? ==> Apply(a, WhatChanged(a, b, 0).value, 0) == Ok(b)
  {
    ChangeRoundTrip(a, b, 0);
    FeeSlackBound(0);
  }

  /** With a fee it need not be: at 5%, adding 20 units of debt adds 21. */
  lemma ChangeRoundTripInexact()
    ensures var a, b, rate := Trove(ONE, ONE), Trove(ONE, ONE + 20), 50_000_000_000_000_000;
            WhatChanged(a, b, rate).Ok? && Apply(a, WhatChanged(a, b, rate).value, rate) == Ok(Trove(ONE, ONE + 21))
  {
    assert UnapplyFee(50_000_000_000_000_000, 20) == 20;
    assert ApplyFee(50_000_000_000_000_000, 20) == 21;
  }

  /** A change that zeroes the debt or the collateral zeroes it on any trove it is applied to. */
  lemma ZeroingPreserved(a: Trove, b: Trove, c: Trove, borrowingRate: Decimal)
    requires !b.IsEmpty() && !c.IsEmpty()
    ensures WhatChanged(b, c, borrowingRate).Ok?
    ensures var t := Apply(a, WhatChanged(b, c, borrowingRate).value, borrowingRate);
            t.Ok? && (c.debt == 0 && b.debt != 0 ==> t.value.debt == 0)
                  && (c.collateral == 0 && b.collateral != 0 ==> t.value.collateral == 0)
  {
  }

  /** Which kind of change it is: none, an invalid or valid creation, a closure, or an adjustment. */
  lemma ChangeKinds(a: Trove, b: Trove, borrowingRate: Decimal)
    requires WhatChanged(a, b, borrowingRate).Ok?
    ensures var change := WhatChanged(a, b, borrowingRate).value;
            && (change == None <==> a == b)
            && (a != b && a == EMPTY ==>
                  if b.debt < LUSD_LIQUIDATION_RESERVE then change == Some(InvalidCreation(b))
                  else change.value.Creation?)
            && (a != b && b == EMPTY ==> change.value.Closure?)
            && (a != b && a != EMPTY && b != EMPTY ==> change.value.Adjustment?)
  {
  }

  /** Applying fails exactly for a creation onto a trove, and for a closure without one. */
  lemma ApplyFails(a: Trove, change: Option<TroveChange>, borrowingRate: Decimal)
    ensures var creates := change.Some? && (change.value.InvalidCreation? || change.value.Creation?);
            var r := Apply(a, change, borrowingRate);
            && (r == Err(TroveExists) <==> creates && a != EMPTY)
            && (r == Err(TroveMissing) <==> change.Some? && change.value.Closure? && a == EMPTY)
            && (r.Err? ==> r.error in {TroveExists, TroveMissing})
  {
  }

  /** `t` is `increase - decrease` above `a`, or zero if that were below. */
  predicate Adjusted(a: Decimal, increase: Decimal, decrease: Decimal, t: Decimal) {
    if a + increase >= decrease then t + decrease == a + increase else t == 0
  }

  /** An adjustment of any trove: both amounts change, through the fee where debt is borrowed, or become zero. */
  lemma ApplyAdjusts(a: Trove, params: Params, setToZero: Option<Zeroed>, borrowingRate: Decimal)
    ensures var t := Apply(a, Some(Adjustment(params, setToZero)), borrowingRate);
            && t.Ok?
            && (if setToZero == Some(ZeroCollateral) then t.value.collateral == 0
                else Adjusted(a.collateral, OrZero(params.depositCollateral), OrZero(params.withdrawCollateral),
                              t.value.collateral))
            && (if setToZero == Some(ZeroDebt) then t.value.debt == 0
                else Adjusted(a.debt, ApplyFee(borrowingRate, OrZero(params.borrowLUSD)), OrZero(params.repayLUSD),
                              t.value.debt))
  {
    assert ApplyFee(borrowingRate, 0) == 0 by { assert Mul(0, ONE + borrowingRate) == 0; }
  }

  /** Closing takes out all the collateral, and repays all debt above the reserve, if there is any. */
  lemma ClosurePays(b: Trove, borrowingRate: Decimal)
    requires !b.IsEmpty() && b.debt >= LUSD_LIQUIDATION_RESERVE
    ensures var change := WhatChanged(b, EMPTY, borrowingRate);
            && change.Ok? && change.value.Some? && change.value.value.Closure?
            && change.value.value.withdrawCollateral == b.collateral
            && OrZero(change.value.value.repayLUSD) + LUSD_LIQUIDATION_RESERVE == b.debt
            && (change.value.value.repayLUSD.None? <==> b.debt == LUSD_LIQUIDATION_RESERVE)
  {
  }

  /** Closing any trove that has the reserve closes any other trove. */
  lemma ClosurePreserved(a: Trove, b: Trove, borrowingRate: Decimal)
    requires !a.IsEmpty() && b.debt >= LUSD_LIQUIDATION_RESERVE
    ensures WhatChanged(b, EMPTY, borrowingRate).Ok?
    ensures Apply(a, WhatChanged(b, EMPTY, borrowingRate).value, borrowingRate) == Ok(EMPTY)
  {
  }

  predicate NoZeros(params: Params) {
    && params.depositCollateral != Some(0) && params.withdrawCollateral != Some(0)
    && params.borrowLUSD != Some(0) && params.repayLUSD != Some(0)
  }

  /** Adjustments name no zero amounts: even the smallest increase of debt borrows something. */
  lemma AdjustmentsNameNoZeros(a: Trove, b: Trove, borrowingRate: Decimal)
    requires !a.IsEmpty() && !b.IsEmpty() && a != b
    ensures var change := WhatChanged(a, b, borrowingRate);
            change.Ok? && change.value.Some? && change.value.value.Adjustment? && NoZeros(change.value.value.params)
  {
    if b.debt > a.debt {
      DivCeilIsLeast(b.debt - a.debt, ONE + borrowingRate);
      assert Mul(0, ONE + borrowingRate) == 0;
    }
  }
}
