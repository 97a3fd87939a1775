/** The Stability Pool's accounting, updated in place (packages/contracts/contracts/StabilityPool.sol). */
module StabilityPools {
  import opened Decimals
  import opened PoolGains
  import opened PoolRuns
  import opened PoolState
  import opened Wrappers

  class StabilityPool {
    var P: nat
    var currentScale: nat
    var currentEpoch: nat
    var totalLUSDDeposits: nat
    var lastLUSDLossErrorOffset: nat
    var lastETHErrorOffset: nat
    var ETH: nat
    var epochToScaleToSum: map<(nat, nat), nat>

    // The mappings from addresses, which are counted from zero; the snapshots of sums are kept apart.
    var deposits: seq<Deposit>
    var depositSnapshotsS: seq<nat>

    function Now(): Pool
      reads this
    {
      Pool(P, currentScale, currentEpoch, totalLUSDDeposits, lastLUSDLossErrorOffset, deposits)
    }

    function Account(): Books
      reads this
    {
      Books(Now(), epochToScaleToSum, lastETHErrorOffset, ETH, depositSnapshotsS)
    }

    constructor (addresses: nat)
      ensures Account() == Opened(addresses) && BooksValid(Account())
    {
      P, currentScale, currentEpoch, totalLUSDDeposits, lastLUSDLossErrorOffset := DIGITS, 0, 0, 0, 0;
      lastETHErrorOffset, ETH, epochToScaleToSum := 0, 0, map[];
      deposits := seq(addresses, _ => NO_DEPOSIT);
      depositSnapshotsS := seq(addresses, _ => 0);
    }

    // -------------------------------------------------------------- offsets

    /** The gain and the loss for each unit staked; the new errors are stored already. */
    method ComputeRewardsPerUnitStaked(coll: nat, debt: nat) returns (gain: nat, r: Result<Loss>)
      requires totalLUSDDeposits > 0
      modifies this`lastLUSDLossErrorOffset, this`lastETHErrorOffset
      ensures r == ComputeLoss(debt, totalLUSDDeposits, old(lastLUSDLossErrorOffset))
      ensures gain == ComputeGain(coll, totalLUSDDeposits, old(lastETHErrorOffset)).perUnitStaked
      ensures lastLUSDLossErrorOffset == if r.Ok? then r.value.error else old(lastLUSDLossErrorOffset)
      ensures lastETHErrorOffset
           == if r.Ok? then ComputeGain(coll, totalLUSDDeposits, old(lastETHErrorOffset)).error
              else old(lastETHErrorOffset)
    {
      var eth := ComputeGain(coll, totalLUSDDeposits, lastETHErrorOffset);
      gain := eth.perUnitStaked;
      r := ComputeLoss(debt, totalLUSDDeposits, lastLUSDLossErrorOffset);
      if r.Ok? {
        lastLUSDLossErrorOffset, lastETHErrorOffset := r.value.error, eth.error;
      }
    }

    method UpdateRewardSumAndProduct(gain: nat, loss: Loss) returns (ok: bool)
      modifies this`P, this`currentScale, this`currentEpoch, this`epochToScaleToSum
      ensures ok <==> UpdateProduct(old(Now()), loss).Ok?
      ensures ok ==> Now() == UpdateProduct(old(Now()), loss).value
      ensures ok ==> epochToScaleToSum == AddToSum(old(Account()), gain)
      ensures !ok ==> Account() == old(Account())
    {
      if loss.perUnitStaked > DIGITS {
        return false;
      }
      var newProductFactor := DIGITS - loss.perUnitStaked;
      var newP, newScale, newEpoch := DIGITS, 0, currentEpoch;
      if newProductFactor == 0 {
        newEpoch := currentEpoch + 1;
      } else {
        var next := NextProduct(P, currentScale, newProductFactor);
        newP, newScale := next.0, next.1;
      }
      if newP == 0 {
        return false;
      }
      epochToScaleToSum := AddToSum(Account(), gain);
      P, currentScale, currentEpoch := newP, newScale, newEpoch;
      ok := true;
    }

    /** `offset`, called by the trove manager. What fails is reverted. */
    method OffsetPool(debt: nat, coll: nat) returns (ok: bool)
      requires BooksValid(Account())
      modifies this
      ensures ok <==> OffsetBooks(old(Account()), debt, coll).Ok?
      ensures Account() == PoolGains.Next(old(Account()), WithCollateral(debt, coll)) && BooksValid(Account())
    {
      NextBooksValid(Account(), WithCollateral(debt, coll));
      if totalLUSDDeposits == 0 || debt == 0 {
        return true;
      }
      var lastError, lastETHError := lastLUSDLossErrorOffset, lastETHErrorOffset;
      var gain, loss := ComputeRewardsPerUnitStaked(coll, debt);
      if loss.Err? {
        return false;
      }
      ok := UpdateRewardSumAndProduct(gain, loss.value);
      if !ok {
        lastLUSDLossErrorOffset, lastETHErrorOffset := lastError, lastETHError;
        return;
      }
      totalLUSDDeposits := totalLUSDDeposits - debt;
      ETH := ETH + coll;
    }

    // -------------------------------------------------------------- deposits

    /** `getCompoundedLUSDDeposit`. */
    function GetCompoundedLUSDDeposit(depositor: nat): nat
      requires BooksValid(Account()) && depositor < |deposits|
      reads this
    {
      Compounded(Now(), deposits[depositor])
    }

    /** `getDepositorETHGain`. */
    function GetDepositorETHGain(depositor: nat): nat
      requires BooksValid(Account()) && depositor < |deposits|
      reads this
    {
      Gain(Account(), deposits[depositor], depositSnapshotsS[depositor])
    }

    method UpdateDepositAndSnapshots(depositor: nat, newValue: nat)
      requires depositor < |deposits| == |depositSnapshotsS|
      modifies this`deposits, this`depositSnapshotsS
      ensures deposits == old(deposits)[depositor := Fresh(old(Now()), newValue)]
      ensures depositSnapshotsS
           == old(depositSnapshotsS)[depositor := if newValue == 0 then 0 else CurrentSum(old(Account()))]
    {
      if newValue == 0 {
        deposits := deposits[depositor := NO_DEPOSIT];
        depositSnapshotsS := depositSnapshotsS[depositor := 0];
      } else {
        depositSnapshotsS := depositSnapshotsS[depositor := CurrentSum(Account())];
        deposits := deposits[depositor := Deposit(newValue, Snapshots(P, currentScale, currentEpoch))];
      }
    }

    /** Returns the ETH that is sent to the depositor. */
    method ProvideToSP(sender: nat, amount: nat) returns (r: Result<nat>)
      requires BooksValid(Account()) && sender < |deposits|
      modifies this`totalLUSDDeposits, this`deposits, this`depositSnapshotsS, this`ETH
      ensures r.Ok? <==> amount > 0 && old(GetDepositorETHGain(sender)) <= old(ETH)
      ensures r.Ok? ==> r.value == old(GetDepositorETHGain(sender))
      ensures Account() == PoolGains.Next(old(Account()), ByDepositor(ToPool(sender, amount)))
      ensures BooksValid(Account())
    {
      NextBooksValid(Account(), ByDepositor(ToPool(sender, amount)));
      WithdrawFails(Now(), sender, amount);
      if amount == 0 {
        return Err(ZeroAmount);
      }
      var gain, compounded := GetDepositorETHGain(sender), GetCompoundedLUSDDeposit(sender);
      if gain > ETH {
        return Err(SubtractionOverflow);
      }
      UpdateDepositAndSnapshots(sender, compounded + amount);
      totalLUSDDeposits := totalLUSDDeposits + amount;
      ETH := ETH - gain;
      r := Ok(gain);
    }

    /** Returns the LUSD and the ETH that are sent to the depositor. */
    method WithdrawFromSP(sender: nat, amount: nat) returns (r: Result<(nat, nat)>)
      requires BooksValid(Account()) && sender < |deposits|
      modifies this`totalLUSDDeposits, this`deposits, this`depositSnapshotsS, this`ETH
      ensures r.Ok? <==> Withdraw(old(Now()), sender, amount).Ok? && old(GetDepositorETHGain(sender)) <= old(ETH)
      ensures r.Ok? ==>
        r.value == (Min(amount, old(GetCompoundedLUSDDeposit(sender))), old(GetDepositorETHGain(sender)))
      ensures Account() == PoolGains.Next(old(Account()), ByDepositor(FromPool(sender, amount)))
      ensures BooksValid(Account())
    {
      NextBooksValid(Account(), ByDepositor(FromPool(sender, amount)));
      WithdrawFails(Now(), sender, amount);
      if deposits[sender].initialValue == 0 {
        return Err(NoDeposit);
      }
      var gain, compounded := GetDepositorETHGain(sender), GetCompoundedLUSDDeposit(sender);
      var withdrawn := Min(amount, compounded);
      if withdrawn > totalLUSDDeposits || gain > ETH {
        return Err(SubtractionOverflow);
      }
      UpdateDepositAndSnapshots(sender, compounded - withdrawn);
      totalLUSDDeposits := totalLUSDDeposits - withdrawn;
      ETH := ETH - gain;
      r := Ok((withdrawn, gain));
    }
  }
}
