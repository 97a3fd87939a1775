/**
 * The store's state, as values and as references (packages/lib-base/src/LiquityStore.ts, lines 15-145,
 * 179-198 and 293-531). Identity of references and equality of what they hold are kept apart.
 */
module StoreState {
  import opened Decimals
  import opened FeeRates
  import opened Troves
  import opened Wrappers

  // ---------------------------------------------------------------- values

  datatype FrontendStatus = Unregistered | Registered(kickbackRate: Decimal)

  datatype StabilityDeposit = StabilityDeposit(
    initialLUSD: Decimal,
    currentLUSD: Decimal,
    collateralGain: Decimal,
    lqtyReward: Decimal,
    frontendTag: string)

  datatype LQTYStake = LQTYStake(stakedLQTY: Decimal, collateralGain: Decimal, lusdGain: Decimal)

  datatype Value =
    | OfFrontend(frontend: FrontendStatus)
    | OfNumber(number: int)
    | OfBoolean(boolean: bool)
    | OfDecimal(decimal: Decimal)
    | OfTrove(trove: Trove)
    | OfUserTrove(userTrove: UserTrove)
    | OfPendingTrove(pending: PendingTrove)
    | OfDeposit(deposit: StabilityDeposit)
    | OfFees(fees: Fees)
    | OfStake(stake: LQTYStake)

  datatype Key =
    | Frontend | OwnFrontend | NumberOfTroves | AccountBalance | LusdBalance | LqtyBalance
    | UniTokenBalance | UniTokenAllowance | RemainingLiquidityMiningLQTYReward
    | LiquidityMiningStake | TotalStakedUniTokens | LiquidityMiningLQTYReward
    | CollateralSurplusBalance | Price | LusdInStabilityPool | Total | TotalRedistributed
    | TroveBeforeRedistribution | StabilityDepositKey | RemainingStabilityPoolLQTYReward
    | FeesInNormalMode | LqtyStakeKey | TotalStakedLQTY | RiskiestTroveBeforeRedistribution
      // derived
    | TroveKey | FeesKey | BorrowingRateKey | RedemptionRateKey | HaveUndercollateralizedTroves

  predicate IsDerived(k: Key) {
    k.TroveKey? || k.FeesKey? || k.BorrowingRateKey? || k.RedemptionRateKey? || k.HaveUndercollateralizedTroves?
  }

  const DERIVED_KEYS: set<Key> :=
    {TroveKey, FeesKey, BorrowingRateKey, RedemptionRateKey, HaveUndercollateralizedTroves}

  const BASE_KEYS: set<Key> := set k: Key | !IsDerived(k)

  /** The type each state variable is declared with. */
  predicate HasType(v: Value, k: Key) {
    match k
    case Frontend | OwnFrontend => v.OfFrontend?
    case NumberOfTroves => v.OfNumber?
    case HaveUndercollateralizedTroves => v.OfBoolean?
    case Total | TotalRedistributed => v.OfTrove?
    case TroveKey => v.OfUserTrove?
    case TroveBeforeRedistribution | RiskiestTroveBeforeRedistribution => v.OfPendingTrove?
    case StabilityDepositKey => v.OfDeposit?
    case FeesInNormalMode | FeesKey => v.OfFees?
    case LqtyStakeKey => v.OfStake?
    case _ => v.OfDecimal?
  }

  predicate FrontendStatusEquals(a: FrontendStatus, b: FrontendStatus) {
    if a.Unregistered? then b.Unregistered? else b.Registered? && a.kickbackRate == b.kickbackRate
  }

  predicate TroveEquals(a: Trove, b: Trove) {
    a.collateral == b.collateral && a.debt == b.debt
  }

  predicate UserTroveEquals(a: UserTrove, b: UserTrove) {
    TroveEquals(a.trove, b.trove) && a.owner == b.owner && a.status == b.status
  }

  predicate PendingTroveEquals(a: PendingTrove, b: PendingTrove) {
    UserTroveEquals(a.user, b.user) && a.stake == b.stake && TroveEquals(a.snapshot, b.snapshot)
  }

  predicate DepositEquals(a: StabilityDeposit, b: StabilityDeposit) {
    && a.initialLUSD == b.initialLUSD && a.currentLUSD == b.currentLUSD && a.collateralGain == b.collateralGain
    && a.lqtyReward == b.lqtyReward && a.frontendTag == b.frontendTag
  }

  predicate StakeEquals(a: LQTYStake, b: LQTYStake) {
    a.stakedLQTY == b.stakedLQTY && a.collateralGain == b.collateralGain && a.lusdGain == b.lusdGain
  }

  predicate FeesEquals(a: Fees, b: Fees) {
    && a.baseRateWithoutDecay == b.baseRateWithoutDecay && a.minuteDecayFactor == b.minuteDecayFactor
    && a.beta == b.beta && a.lastFeeOperation == b.lastFeeOperation
    && a.timeOfLatestBlock == b.timeOfLatestBlock && a.recoveryMode == b.recoveryMode
  }

  /** The comparison the reducers use for each type. */
  predicate Equals(a: Value, b: Value) {
    match (a, b)
    case (OfFrontend(x), OfFrontend(y)) => FrontendStatusEquals(x, y)
    case (OfNumber(x), OfNumber(y)) => x == y
    case (OfBoolean(x), OfBoolean(y)) => x == y
    case (OfDecimal(x), OfDecimal(y)) => x == y
    case (OfTrove(x), OfTrove(y)) => TroveEquals(x, y)
    case (OfUserTrove(x), OfUserTrove(y)) => UserTroveEquals(x, y)
    case (OfPendingTrove(x), OfPendingTrove(y)) => PendingTroveEquals(x, y)
    case (OfDeposit(x), OfDeposit(y)) => DepositEquals(x, y)
    case (OfFees(x), OfFees(y)) => FeesEquals(x, y)
    case (OfStake(x), OfStake(y)) => StakeEquals(x, y)
    case _ => false
  }

  /** The comparisons miss no field: equal in their sense is equal in value. */
  lemma EqualsIsEquality(a: Value, b: Value)
    ensures Equals(a, b) <==> a == b
  {
  }

  // ---------------------------------------------------------------- references

  /** An immutable object of the source; two objects may hold the same value. */
  class Ref {
    const value: Value

    constructor (value: Value)
      ensures this.value == value
    {
      this.value := value;
    }
  }

  /** What a field holds: numbers and booleans are compared by value by `===`, all else by identity. */
  datatype Slot = Primitive(value: Value) | Object(ref: Ref)

  function Held(s: Slot): Value {
    match s
    case Primitive(v) => v
    case Object(r) => r.value
  }

  predicate WellTyped(s: Slot, k: Key) {
    HasType(Held(s), k) && (s.Primitive? <==> k.NumberOfTroves? || k.HaveUndercollateralizedTroves?)
  }

  type Slots = map<Key, Slot>
  type Values = map<Key, Value>

  predicate AllWellTyped(m: Slots) {
    forall k :: k in m ==> WellTyped(m[k], k)
  }

  predicate IsUpdate(m: Slots) {
    m.Keys <= BASE_KEYS && AllWellTyped(m)
  }

  predicate IsBase(m: Slots) {
    m.Keys == BASE_KEYS && AllWellTyped(m)
  }

  predicate IsDerivedState(m: Slots) {
    m.Keys == DERIVED_KEYS && AllWellTyped(m)
  }

  predicate AreBaseValues(m: Values) {
    m.Keys == BASE_KEYS && forall k :: k in m ==> HasType(m[k], k)
  }

  function ValuesOf(m: Slots): (r: Values)
    ensures r.Keys == m.Keys && forall k :: k in m ==> r[k] == Held(m[k])
  {
    map k | k in m :: Held(m[k])
  }

  // ---------------------------------------------------------------- reducers

  /** `_updateIfChanged`, `_silentlyUpdateIfChanged` and `_updateFees` differ only in logging. */
  function UpdateIfChanged(prev: Slot, next: Option<Slot>): Slot {
    if next.Some? && !Equals(Held(prev), Held(next.value)) then next.value else prev
  }

  function Lookup(m: Slots, k: Key): Option<Slot> {
    if k in m then Some(m[k]) else None
  }

  function Reduce(prev: Slots, update: Slots): (r: Slots)
    ensures r.Keys == prev.Keys
  {
    map k | k in prev :: UpdateIfChanged(prev[k], Lookup(update, k))
  }

  function PriceIn(v: Values): Decimal
    requires AreBaseValues(v)
  {
    assert HasType(v[Price], Price);
    v[Price].decimal
  }

  function TroveIn(v: Values, k: Key): Trove
    requires AreBaseValues(v) && (k.Total? || k.TotalRedistributed?)
  {
    assert HasType(v[k], k);
    v[k].trove
  }

  function PendingIn(v: Values, k: Key): PendingTrove
    requires AreBaseValues(v) && (k.TroveBeforeRedistribution? || k.RiskiestTroveBeforeRedistribution?)
  {
    assert HasType(v[k], k);
    v[k].pending
  }

  function FeesIn(v: Values): Fees
    requires AreBaseValues(v)
  {
    assert HasType(v[FeesInNormalMode], FeesInNormalMode);
    v[FeesInNormalMode].fees
  }

  /** `_derive`, on values; it fails if a fee calculation does. */
  function Derive(v: Values): Result<Values>
    requires AreBaseValues(v)
  {
    var price, redistributed := PriceIn(v), TroveIn(v, TotalRedistributed);
    var fees := SetRecoveryMode(FeesIn(v), TroveIn(v, Total).IsBelowCritical(price));
    var riskiest := PendingIn(v, RiskiestTroveBeforeRedistribution).ApplyRedistribution(redistributed);
    match BorrowingRate(fees, None)
    case Err(e) => Err(e)
    case Ok(borrowingRate) =>
      match RedemptionRate(fees, ZERO, None)
      case Err(e) => Err(e)
      case Ok(redemptionRate) => Ok(DerivedValues(
        PendingIn(v, TroveBeforeRedistribution).ApplyRedistribution(redistributed),
        fees, borrowingRate, redemptionRate,
        riskiest.trove.IsBelowMinimum(price)))
  }

  function DerivedValues(trove: UserTrove, fees: Fees, borrowingRate: Decimal, redemptionRate: Decimal,
                         haveUndercollateralizedTroves: bool): Values {
    map[
      TroveKey := OfUserTrove(trove),
      FeesKey := OfFees(fees),
      BorrowingRateKey := OfDecimal(borrowingRate),
      RedemptionRateKey := OfDecimal(redemptionRate),
      HaveUndercollateralizedTroves := OfBoolean(haveUndercollateralizedTroves)]
  }

  /** References to freshly derived values; any references that hold those values will do. */
  predicate HoldsDerived(next: Result<Slots>, base: Slots)
    requires IsBase(base)
  {
    match Derive(ValuesOf(base))
    case Err(e) => next == Err(e)
    case Ok(values) => next.Ok? && IsDerivedState(next.value) && ValuesOf(next.value) == values
  }

  /** Recovery mode: the total collateral is worth less than 150% of the total debt. */
  predicate InRecovery(v: Values)
    requires AreBaseValues(v)
  {
    var total := TroveIn(v, Total);
    total.debt > 0 && total.collateral * PriceIn(v) < CRITICAL_COLLATERAL_RATIO * total.debt
  }

  /** The riskiest trove, with its share, is worth less than 110% of its debt. */
  predicate RiskiestIsUndercollateralized(v: Values)
    requires AreBaseValues(v)
  {
    var t := PendingIn(v, RiskiestTroveBeforeRedistribution).ApplyRedistribution(TroveIn(v, TotalRedistributed)).trove;
    t.debt > 0 && t.collateral * PriceIn(v) < MINIMUM_COLLATERAL_RATIO * t.debt
  }

  /** What each derived field is to be, with both thresholds in exact terms. */
  predicate MeansDerived(v: Values, m: Values)
    requires AreBaseValues(v)
  {
    var fees := FeesIn(v).(recoveryMode := InRecovery(v));
    && m.Keys == DERIVED_KEYS
    && m[TroveKey]
       == OfUserTrove(PendingIn(v, TroveBeforeRedistribution).ApplyRedistribution(TroveIn(v, TotalRedistributed)))
    && m[FeesKey] == OfFees(fees)
    && BorrowingRate(fees, None).Ok? && m[BorrowingRateKey] == OfDecimal(BorrowingRate(fees, None).value)
    && (m[BorrowingRateKey] == OfDecimal(0) <==> InRecovery(v))
    && RedemptionRate(FeesIn(v), 0, None).Ok?
    && m[RedemptionRateKey] == OfDecimal(RedemptionRate(FeesIn(v), 0, None).value)
    && m[HaveUndercollateralizedTroves] == OfBoolean(RiskiestIsUndercollateralized(v))
  }

  lemma DeriveParts(v: Values)
    requires AreBaseValues(v) && Derive(v).Ok?
    ensures var fees := FeesIn(v).(recoveryMode := InRecovery(v));
            var borrowing, redemption := BorrowingRate(fees, None), RedemptionRate(FeesIn(v), 0, None);
            && borrowing.Ok? && redemption.Ok? && (borrowing.value == 0 <==> InRecovery(v))
            && Derive(v) == Ok(DerivedValues(
                 PendingIn(v, TroveBeforeRedistribution).ApplyRedistribution(TroveIn(v, TotalRedistributed)),
                 fees, borrowing.value, redemption.value, RiskiestIsUndercollateralized(v)))
  {
    var riskiest := PendingIn(v, RiskiestTroveBeforeRedistribution).ApplyRedistribution(TroveIn(v, TotalRedistributed));
    RatioThreshold(TroveIn(v, Total), PriceIn(v), CRITICAL_COLLATERAL_RATIO);
    RatioThreshold(riskiest.trove, PriceIn(v), MINIMUM_COLLATERAL_RATIO);
    assert TroveIn(v, Total).IsBelowCritical(PriceIn(v)) == InRecovery(v);
    assert riskiest.trove.IsBelowMinimum(PriceIn(v)) == RiskiestIsUndercollateralized(v);
    RecoveryModeOnlyBorrowing(FeesIn(v), InRecovery(v), 0, None);
    BorrowingRateRange(SetRecoveryMode(FeesIn(v), InRecovery(v)), None);
  }

  /** Deriving gives just that; borrowing is free exactly in recovery mode. */
  lemma DeriveMeans(v: Values)
    requires AreBaseValues(v) && Derive(v).Ok?
    ensures MeansDerived(v, Derive(v).value)
  {
    DeriveParts(v);
    DeriveWellTyped(v);
  }

  /** From the last fee operation to the latest block there are more minutes than `pow` accepts. */
  predicate TooOld(v: Values)
    requires AreBaseValues(v)
  {
    ElapsedMinutes(FeesIn(v), None) > MAX_EXPONENT
  }

  /** `_derive` throws exactly then, also in recovery mode. */
  lemma DeriveFails(v: Values)
    requires AreBaseValues(v)
    ensures Derive(v).Err? <==> TooOld(v)
  {
    FeesFail(SetRecoveryMode(FeesIn(v), TroveIn(v, Total).IsBelowCritical(PriceIn(v))), ZERO, None);
  }

  predicate AreDerivedValues(v: Values) {
    v.Keys == DERIVED_KEYS && forall k :: k in v ==> HasType(v[k], k)
  }

  lemma DeriveWellTyped(v: Values)
    requires AreBaseValues(v) && Derive(v).Ok?
    ensures AreDerivedValues(Derive(v).value)
  {
    forall t, f, a, b, h
      ensures AreDerivedValues(DerivedValues(t, f, a, b, h))
    {
      DerivedValuesTyped(t, f, a, b, h);
    }
  }

  lemma DerivedValuesTyped(t: UserTrove, f: Fees, a: Decimal, b: Decimal, h: bool)
    ensures AreDerivedValues(DerivedValues(t, f, a, b, h))
  {
    var d := DerivedValues(t, f, a, b, h);
    assert d.Keys == DERIVED_KEYS;
    forall k | k in d
      ensures HasType(d[k], k)
    {
      assert IsDerived(k);
    }
  }

  /** The object `_derive` returns, given the objects it has created. */
  function DerivedSlots(trove: Ref, fees: Ref, borrowingRate: Ref, redemptionRate: Ref,
                        haveUndercollateralized: Value): Slots {
    map[
      TroveKey := Object(trove),
      FeesKey := Object(fees),
      BorrowingRateKey := Object(borrowingRate),
      RedemptionRateKey := Object(redemptionRate),
      HaveUndercollateralizedTroves := Primitive(haveUndercollateralized)]
  }

  lemma DerivedSlotsHold(v: Values, trove: Ref, fees: Ref, borrowingRate: Ref, redemptionRate: Ref)
    requires AreDerivedValues(v) && trove.value == v[TroveKey] && fees.value == v[FeesKey]
    requires borrowingRate.value == v[BorrowingRateKey] && redemptionRate.value == v[RedemptionRateKey]
    ensures var m := DerivedSlots(trove, fees, borrowingRate, redemptionRate, v[HaveUndercollateralizedTroves]);
            IsDerivedState(m) && ValuesOf(m) == v
  {
    var m := DerivedSlots(trove, fees, borrowingRate, redemptionRate, v[HaveUndercollateralizedTroves]);
    assert m.Keys == DERIVED_KEYS;
    forall k | k in m
      ensures Held(m[k]) == v[k] && WellTyped(m[k], k)
    {
      assert k in v && HasType(v[k], k) && IsDerived(k);
    }
  }

  /** `difference`: what `a` holds that `b` does not hold identically. */
  function Difference(a: Slots, b: Slots): Slots {
    map k | k in a && (k !in b || a[k] != b[k]) :: a[k]
  }

  /** The difference is what takes `b` to `a`, and nothing that `b` holds already. */
  lemma DifferencePatches(a: Slots, b: Slots)
    ensures forall k :: k in a ==> k in b + Difference(a, b) && (b + Difference(a, b))[k] == a[k]
    ensures forall k :: k in Difference(a, b) ==> k in a && !(k in b && b[k] == a[k])
  {
  }

  // ---------------------------------------------------------------- what the reducers keep

  /** Field by field, a reducer holds the new value where one is given. */
  lemma ReduceHolds(prev: Slots, update: Slots)
    ensures forall k :: k in prev ==>
      Held(Reduce(prev, update)[k]) == if k in update then Held(update[k]) else Held(prev[k])
  {
    forall k | k in prev && k in update
      ensures Held(UpdateIfChanged(prev[k], Some(update[k]))) == Held(update[k])
    {
      EqualsIsEquality(Held(prev[k]), Held(update[k]));
    }
  }

  lemma ReduceWellTyped(prev: Slots, update: Slots)
    requires forall k :: k in prev ==> WellTyped(prev[k], k) && (k in update ==> WellTyped(update[k], k))
    ensures forall k :: k in prev ==> WellTyped(Reduce(prev, update)[k], k)
  {
    forall k | k in prev
      ensures WellTyped(Reduce(prev, update)[k], k)
    {
      assert Reduce(prev, update)[k] == prev[k] || (k in update && Reduce(prev, update)[k] == update[k]);
    }
  }

  /** In values, reducing is overwriting. */
  lemma ReduceValues(prev: Slots, update: Slots)
    requires update.Keys <= prev.Keys
    ensures ValuesOf(Reduce(prev, update)) == ValuesOf(prev) + ValuesOf(update)
  {
    ReduceHolds(prev, update);
  }

  lemma AllKeysReplaced(prev: Slots, next: Slots)
    requires next.Keys == prev.Keys
    ensures ValuesOf(prev) + ValuesOf(next) == ValuesOf(next)
  {
  }

  lemma ReduceKeepsTypes(prev: Slots, update: Slots)
    requires AllWellTyped(prev) && AllWellTyped(update)
    ensures AllWellTyped(Reduce(prev, update))
  {
    ReduceWellTyped(prev, update);
  }

  /** Reducing keeps the types, and the values are those of overwriting the fields. */
  lemma ReduceOverwrites(base: Slots, update: Slots)
    requires IsBase(base) && IsUpdate(update)
    ensures IsBase(Reduce(base, update))
    ensures ValuesOf(Reduce(base, update)) == ValuesOf(base) + ValuesOf(update)
  {
    ReduceKeepsTypes(base, update);
    ReduceValues(base, update);
  }

  lemma ReduceDerivedReplaces(prev: Slots, next: Slots)
    requires IsDerivedState(prev) && IsDerivedState(next)
    ensures IsDerivedState(Reduce(prev, next)) && ValuesOf(Reduce(prev, next)) == ValuesOf(next)
  {
    ReduceKeepsTypes(prev, next);
    ReduceValues(prev, next);
    AllKeysReplaced(prev, next);
  }

  /**
   * Comparing references after reducing is comparing values: a field is in the difference exactly if
   * its value changed, and otherwise the very same reference is kept.
   */
  lemma DifferenceIsValueChange(prev: Slots, update: Slots)
    ensures var next := Reduce(prev, update);
            forall k :: k in prev ==>
              (k in Difference(next, prev) <==> Held(next[k]) != Held(prev[k])) &&
              (Held(next[k]) == Held(prev[k]) ==> next[k] == prev[k])
  {
    forall k | k in prev && k in update
      ensures Equals(Held(prev[k]), Held(update[k])) <==> Held(prev[k]) == Held(update[k])
    {
      EqualsIsEquality(Held(prev[k]), Held(update[k]));
    }
  }

  /** Reducing by values already held changes nothing, not even references. */
  lemma ReduceBySameValues(prev: Slots, update: Slots)
    requires forall k :: k in prev && k in update ==> Held(prev[k]) == Held(update[k])
    ensures Reduce(prev, update) == prev
  {
    forall k | k in prev && k in update
      ensures Equals(Held(prev[k]), Held(update[k]))
    {
      EqualsIsEquality(Held(prev[k]), Held(update[k]));
    }
  }
}
