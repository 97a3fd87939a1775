/**
 * The Stability Pool's accounting (packages/contracts/contracts/StabilityPool.sol): deposits that shrink
 * together, through one running product, when debt is offset against the pool.
 *
 * Amounts are counts of units of 10^-18 and never overflow here; an overflow would revert the transaction.
 */
module PoolState {
  import opened Arithmetic
  import opened Decimals
  import opened Wrappers

  const SCALE_FACTOR: nat := 1_000_000_000

  /** Of a depositor's snapshots, those that their deposit is computed from. */
  datatype Snapshots = Snapshots(p: nat, scale: nat, epoch: nat)

  datatype Deposit = Deposit(initialValue: nat, snapshots: Snapshots)

  const NO_DEPOSIT := Deposit(0, Snapshots(0, 0, 0))

  /** The state that the accounting is about, with one deposit for each address. */
  datatype Pool = Pool(
    p: nat,
    currentScale: nat,
    currentEpoch: nat,
    totalLUSDDeposits: nat,
    lastLUSDLossError: nat,
    deposits: seq<Deposit>)

  function Initial(addresses: nat): Pool {
    Pool(DIGITS, 0, 0, 0, 0, seq(addresses, _ => NO_DEPOSIT))
  }

  // ---------------------------------------------------------------- offsets

  /** A loss per unit staked, rounded up, and the error that its rounding leaves for the next one. */
  datatype Loss = Loss(perUnitStaked: nat, error: nat)

  function ComputeLoss(debt: nat, total: nat, lastError: nat): Result<Loss>
    requires total > 0
  {
    if debt > total then Err(AssertionFailed)
    else if debt == total then Ok(Loss(DIGITS, 0))
    else if debt * DIGITS < lastError then Err(SubtractionOverflow)
    else
      var numerator := debt * DIGITS - lastError;
      var perUnit := numerator / total + 1;
      DivBounds(numerator, total);
      assert perUnit * total == total * (numerator / total) + total;
      Ok(Loss(perUnit, perUnit * total - numerator))
  }

  /** The part of a deposit that is left after a loss. */
  function Factor(loss: Loss): int {
    DIGITS - loss.perUnitStaked
  }

  /** The product and the scale after the product is multiplied by a factor. */
  function NextProduct(p: nat, scale: nat, factor: nat): (nat, nat) {
    var product := p * factor / DIGITS;
    MulMonotone(0, p, 0, factor);
    DivGalois(p * factor, DIGITS, 0);
    if product < SCALE_FACTOR then
      MulMonotone(0, p * factor, 0, SCALE_FACTOR);
      DivGalois(p * factor * SCALE_FACTOR, DIGITS, 0);
      (p * factor * SCALE_FACTOR / DIGITS, scale + 1)
    else (product, scale)
  }

  /** `_updateRewardSumAndProduct`, without the sum. */
  function UpdateProduct(s: Pool, loss: Loss): Result<Pool> {
    if loss.perUnitStaked > DIGITS then Err(AssertionFailed)
    else if Factor(loss) == 0 then
      Ok(s.(currentEpoch := s.currentEpoch + 1, currentScale := 0, p := DIGITS))
    else
      var (p, scale) := NextProduct(s.p, s.currentScale, Factor(loss));
      if p == 0 then Err(AssertionFailed) else Ok(s.(p := p, currentScale := scale))
  }

  function OffsetDebt(s: Pool, debt: nat): Result<Pool> {
    var total := s.totalLUSDDeposits;
    if total == 0 || debt == 0 then Ok(s)
    else match ComputeLoss(debt, total, s.lastLUSDLossError)
      case Err(e) => Err(e)
      case Ok(loss) =>
        match UpdateProduct(s.(lastLUSDLossError := loss.error), loss)
        case Err(e) => Err(e)
        case Ok(t) => Ok(t.(totalLUSDDeposits := total - debt))
  }

  // ---------------------------------------------------------------- deposits

  /** A deposit that the current epoch's offsets have depleted, with snapshots that can be its own. */
  predicate DepositValid(s: Pool, d: Deposit) {
    d.initialValue > 0 ==>
      && d.snapshots.p > 0 && d.snapshots.epoch <= s.currentEpoch
      && (d.snapshots.epoch == s.currentEpoch ==> d.snapshots.scale <= s.currentScale)
  }

  /** `_getCompoundedStakeFromSnapshots` before its last line. */
  function Shrunk(s: Pool, d: Deposit): nat
    requires DepositValid(s, d) && d.initialValue > 0
  {
    if d.snapshots.epoch < s.currentEpoch then 0
    else
      var product := d.initialValue * s.p;
      DivGalois(product, d.snapshots.p, 0);
      match s.currentScale - d.snapshots.scale
      case 0 => product / d.snapshots.p
      case 1 => product / d.snapshots.p / SCALE_FACTOR
      case _ => 0
  }

  /** `getCompoundedLUSDDeposit`. */
  function Compounded(s: Pool, d: Deposit): nat
    requires DepositValid(s, d)
  {
    if d.initialValue == 0 then 0
    else if Shrunk(s, d) < d.initialValue / 1_000_000_000 then 0
    else Shrunk(s, d)
  }

  /** A deposit of `value` made now. */
  function Fresh(s: Pool, value: nat): Deposit {
    if value == 0 then NO_DEPOSIT else Deposit(value, Snapshots(s.p, s.currentScale, s.currentEpoch))
  }

  /** `provideToSP`, as far as the deposit and the total are concerned. */
  function Provide(s: Pool, who: nat, amount: nat): Result<Pool>
    requires who < |s.deposits| && DepositValid(s, s.deposits[who])
  {
    if amount == 0 then Err(ZeroAmount) else
      var d := s.deposits[who];
      var compounded := Compounded(s, d);
      if compounded > d.initialValue then Err(SubtractionOverflow)
      else Ok(s.(totalLUSDDeposits := s.totalLUSDDeposits + amount,
                 deposits := s.deposits[who := Fresh(s, compounded + amount)]))
  }

  /** `withdrawFromSP`, likewise; withdrawing nothing also is what `withdrawETHGainToTrove` does to both. */
  function Withdraw(s: Pool, who: nat, amount: nat): Result<Pool>
    requires who < |s.deposits| && DepositValid(s, s.deposits[who])
  {
    var d := s.deposits[who];
    if d.initialValue == 0 then Err(NoDeposit) else
      var compounded := Compounded(s, d);
      var withdrawn := Min(amount, compounded);
      if compounded > d.initialValue || withdrawn > s.totalLUSDDeposits then Err(SubtractionOverflow)
      else Ok(s.(totalLUSDDeposits := s.totalLUSDDeposits - withdrawn,
                 deposits := s.deposits[who := Fresh(s, compounded - withdrawn)]))
  }

  // ---------------------------------------------------------------- the machine

  datatype Event = Offset(debt: nat) | ToPool(who: nat, amount: nat) | FromPool(who: nat, amount: nat)

  /** How far the product has come down since a deposit was made. */
  predicate Depleted(s: Pool, d: Deposit) {
    d.initialValue > 0 && d.snapshots.epoch == s.currentEpoch ==>
      && (s.currentScale == d.snapshots.scale ==> s.p <= d.snapshots.p)
      && (s.currentScale == d.snapshots.scale + 1 ==> s.p <= SCALE_FACTOR * d.snapshots.p)
  }

  predicate Valid(s: Pool) {
    && 0 < s.p <= DIGITS
    && forall d :: d in s.deposits ==> DepositValid(s, d) && Depleted(s, d)
  }

  predicate CanHappen(s: Pool, e: Event) {
    e.Offset? || e.who < |s.deposits|
  }

  function Outcome(s: Pool, e: Event): Result<Pool>
    requires Valid(s) && CanHappen(s, e)
  {
    match e
    case Offset(debt) => OffsetDebt(s, debt)
    case ToPool(who, amount) => Provide(s, who, amount)
    case FromPool(who, amount) => Withdraw(s, who, amount)
  }

  /** A transaction that fails is reverted. */
  function Next(s: Pool, e: Event): Pool
    requires Valid(s) && CanHappen(s, e)
  {
    var r := Outcome(s, e);
    if r.Ok? then r.value else s
  }
}
