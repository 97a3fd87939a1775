/**
 * When exactly the Stability Pool covers its deposits (packages/contracts/contracts/StabilityPool.sol, lines
 * 532-640 and 778-820).
 */
module PoolCover {
  import opened Arithmetic
  import opened Decimals
  import opened PoolRuns
  import opened PoolState
  import opened Wrappers

  /** The error that an offset which does not empty the pool leaves pending. */
  function ErrorAfter(s: Pool, debt: nat): int
    requires s.totalLUSDDeposits > 0
  {
    s.totalLUSDDeposits - (debt * DIGITS - s.lastLUSDLossError) % s.totalLUSDDeposits
  }

  lemma LossIsLeft(s: Pool, debt: nat, t: Pool, loss: nat)
    requires s.totalLUSDDeposits > 0 && 0 < t.lastLUSDLossError <= s.totalLUSDDeposits
    requires loss * s.totalLUSDDeposits == debt * DIGITS - s.lastLUSDLossError + t.lastLUSDLossError
    ensures Left(s, debt) == DIGITS - loss && ErrorAfter(s, debt) == t.lastLUSDLossError
  {
    var n, total := debt * DIGITS - s.lastLUSDLossError, s.totalLUSDDeposits;
    assert total * (loss - 1) == loss * total - total;
    DivUnique(n, total, loss - 1);
    assert n == total * (n / total) + n % total;
  }

  /** The worth of all deposits is at most the pool. */
  predicate FullyCovered(s: Pool) {
    Covered(s, s.lastLUSDLossError)
  }

  lemma FullyCoveredMeans(s: Pool)
    requires Valid(s)
    ensures FullyCovered(s) <==> Total(s.deposits, Worths(s)) <= s.totalLUSDDeposits as real
  {
  }

  /** An offset keeps the pool covered if it leaves at least the error it has started from, or empties it. */
  lemma OffsetKeepsCover(s: Pool, debt: nat, t: Pool)
    requires FullyCovered(s) && OffsetDebt(s, debt) == Ok(t)
    requires s.lastLUSDLossError <= t.lastLUSDLossError || t.currentEpoch != s.currentEpoch
    ensures FullyCovered(t)
  {
    OffsetValid(s, debt);
    OffsetCases(s, debt);
    if s.lastLUSDLossError <= t.lastLUSDLossError {
      OffsetCovered(s, debt, t, s.lastLUSDLossError);
      CoveredMore(t, s.lastLUSDLossError, t.lastLUSDLossError);
    } else {
      OffsetEmpties(s, debt, t, s.lastLUSDLossError);
    }
  }

  /** No part of the product is rounded off. */
  predicate ProductExact(s: Pool, debt: nat, t: Pool)
    requires s.totalLUSDDeposits > 0
  {
    t.p * DIGITS == s.p * Left(s, debt) * (if t.currentScale == s.currentScale then 1 else SCALE_FACTOR)
  }

  lemma DepositLeftExactly(s: Pool, debt: nat, t: Pool, loss: nat, d: Deposit)
    requires ShrinksBy(s, debt, t, loss) && DepositValid(s, d)
    requires t.p * DIGITS == s.p * (DIGITS - loss) * (if t.currentScale == s.currentScale then 1 else SCALE_FACTOR)
    ensures DepositValid(t, d)
    ensures WorthOf(s, d) * (DIGITS - loss) as real <= WorthOf(t, d) * DIGITS as real
  {
    if d.initialValue > 0 && d.snapshots.epoch == s.currentEpoch {
      var v, q, k, left := d.initialValue, d.snapshots.p, s.currentScale - d.snapshots.scale, DIGITS - loss;
      if t.currentScale == s.currentScale {
        Depreciates(v, t.p, s.p, q, k, left, DIGITS);
      } else {
        assert s.p * (left * SCALE_FACTOR) == s.p * left * SCALE_FACTOR;
        Depreciates(v, t.p, s.p, q, k, left * SCALE_FACTOR, DIGITS);
        Finer(Depreciated(v, s.p, q, k), left, Depreciated(v, t.p, q, k), Depreciated(v, t.p, q, k + 1));
      }
    }
  }

  lemma Finer(x: real, left: nat, y: real, z: real)
    requires x * (left * SCALE_FACTOR) as real <= y * DIGITS as real && z == y / 1_000_000_000.0
    ensures x * left as real <= z * DIGITS as real
  {
    assert (left * SCALE_FACTOR) as real == left as real * 1_000_000_000.0;
  }

  /** Where the worth makes up the whole pool and the product is exact, an offset keeps the cover only then. */
  lemma OffsetKeepsCoverOnlyThen(s: Pool, debt: nat, t: Pool)
    requires Valid(s) && OffsetDebt(s, debt) == Ok(t) && s.totalLUSDDeposits > 0 && debt > 0
    requires t.currentEpoch == s.currentEpoch && ProductExact(s, debt, t)
    requires Total(s.deposits, Worths(s)) == s.totalLUSDDeposits as real
    ensures ErrorAfter(s, debt) == t.lastLUSDLossError
    ensures FullyCovered(t) <==> s.lastLUSDLossError <= ErrorAfter(s, debt)
  {
    OffsetValid(s, debt);
    var loss := ExactlyLeft(s, debt, t);
    WholePoolLeft(s.deposits, Worths(s), Worths(t), loss, s.totalLUSDDeposits, debt,
                  s.lastLUSDLossError, t.lastLUSDLossError);
    if s.lastLUSDLossError <= t.lastLUSDLossError {
      FullyCoveredMeans(s);
      OffsetKeepsCover(s, debt, t);
    }
  }

  lemma ExactlyLeft(s: Pool, debt: nat, t: Pool) returns (loss: nat)
    requires Valid(s) && OffsetDebt(s, debt) == Ok(t) && s.totalLUSDDeposits > 0 && debt > 0
    requires t.currentEpoch == s.currentEpoch && ProductExact(s, debt, t)
    ensures loss < DIGITS && t.deposits == s.deposits && t.totalLUSDDeposits == s.totalLUSDDeposits - debt
    ensures loss * s.totalLUSDDeposits == debt * DIGITS - s.lastLUSDLossError + t.lastLUSDLossError
    ensures ErrorAfter(s, debt) == t.lastLUSDLossError
    ensures AllLeavePart(s.deposits, Worths(t), Worths(s), DIGITS as real, (DIGITS - loss) as real)
  {
    OffsetCases(s, debt);
    loss :| ShrinksBy(s, debt, t, loss);
    LossIsLeft(s, debt, t, loss);
    AllLeftExactly(s, debt, t, loss);
  }

  lemma AllLeftExactly(s: Pool, debt: nat, t: Pool, loss: nat)
    requires Valid(s) && ShrinksBy(s, debt, t, loss)
    requires t.p * DIGITS == s.p * (DIGITS - loss) * (if t.currentScale == s.currentScale then 1 else SCALE_FACTOR)
    ensures AllLeavePart(s.deposits, Worths(t), Worths(s), DIGITS as real, (DIGITS - loss) as real)
  {
    forall i | 0 <= i < |s.deposits|
      ensures LeavesPart(Worths(t), Worths(s), s.deposits[i], DIGITS as real, (DIGITS - loss) as real)
    {
      assert DepositValid(s, s.deposits[i]);
      DepositLeftExactly(s, debt, t, loss, s.deposits[i]);
    }
  }

  lemma WholePoolLeft(ds: seq<Deposit>, x: Deposit -> real, y: Deposit -> real, loss: nat,
                      total: nat, debt: nat, e: nat, e': nat)
    requires loss < DIGITS && debt <= total && loss * total == debt * DIGITS - e + e'
    requires AllLeavePart(ds, y, x, DIGITS as real, (DIGITS - loss) as real) && Total(ds, x) == total as real
    ensures Total(ds, y) * DIGITS as real <= ((total - debt) * DIGITS) as real ==> e <= e'
  {
    TotalLeavesPart(ds, y, x, DIGITS as real, (DIGITS - loss) as real);
    RealOfProduct(total, DIGITS - loss);
    assert total * (DIGITS - loss) == (total - debt) * DIGITS + e - e';
  }

  // ---------------------------------------------------------------- over a run

  /** The i-th event leaves no smaller error pending, or empties the pool. */
  predicate ErrorKept(ss: seq<Pool>, i: nat)
    requires i + 1 < |ss|
  {
    ss[i].lastLUSDLossError <= ss[i + 1].lastLUSDLossError || ss[i].currentEpoch != ss[i + 1].currentEpoch
  }

  lemma NextKeepsCover(s: Pool, e: Event)
    requires FullyCovered(s) && CanHappen(s, e)
    requires var t := Next(s, e); s.lastLUSDLossError <= t.lastLUSDLossError || t.currentEpoch != s.currentEpoch
    ensures FullyCovered(Next(s, e))
  {
    if e.Offset? && Outcome(s, e).Ok? {
      OffsetKeepsCover(s, e.debt, Next(s, e));
    } else {
      NextCovered(s, e, s.lastLUSDLossError);
    }
  }

  lemma {:induction false} RunFullyCovered(ss: seq<Pool>, es: seq<Event>, i: nat)
    requires IsRun(ss, es) && i <= |es| && forall k :: 0 <= k < i ==> ErrorKept(ss, k)
    ensures FullyCovered(ss[i])
  {
    if i == 0 {
      InitialCovered(|ss[0].deposits|);
    } else {
      RunFullyCovered(ss, es, i - 1);
      assert HappensAt(ss, es, i - 1) && ErrorKept(ss, i - 1);
      NextKeepsCover(ss[i - 1], es[i - 1]);
    }
  }

  /** As long as no offset leaves a smaller error than it has started from, the pool covers all deposits. */
  lemma {:induction false} RunCoversWhileErrorsKept(ss: seq<Pool>, es: seq<Event>, i: nat)
    requires IsRun(ss, es) && i <= |es| && forall k :: 0 <= k < i ==> ErrorKept(ss, k)
    ensures Valid(ss[i]) && TotalCompounded(ss[i], ss[i].deposits) <= ss[i].totalLUSDDeposits
  {
    RunFullyCovered(ss, es, i);
    TotalCompoundedAtMostWorth(ss[i], ss[i].deposits);
  }

  // ---------------------------------------------------------------- the excess

  /** One deposit of `2 * m` LUSD, and the pool after two offsets. */
  function Funded(m: nat): Pool {
    Pool(DIGITS, 0, 0, 2 * m * DIGITS, 0, [Deposit(2 * m * DIGITS, Snapshots(DIGITS, 0, 0))])
  }

  function Once(m: nat): Pool {
    Funded(m).(p := 899_999_999_999_999_998, totalLUSDDeposits := 2 * m * 899_999_999_999_999_999,
               lastLUSDLossError := 2 * m * DIGITS)
  }

  function Twice(m: nat): Pool
    requires m > 0
  {
    Funded(m).(p := 449_999_999_999_999_999, totalLUSDDeposits := m * 899_999_999_999_999_997 + 1,
               lastLUSDLossError := DIGITS)
  }

  function FirstDebt(m: nat): nat {
    2 * m * 100_000_000_000_000_001
  }

  function SecondDebt(m: nat): nat
    requires m > 0
  {
    m * 900_000_000_000_000_001 - 1
  }

  lemma FundedByDeposit(m: nat)
    requires m > 0
    ensures Valid(Initial(1)) && Next(Initial(1), ToPool(0, 2 * m * DIGITS)) == Funded(m) && Valid(Funded(m))
  {
    assert Initial(1).deposits == [NO_DEPOSIT];
    assert [NO_DEPOSIT][0 := Funded(m).deposits[0]] == Funded(m).deposits;
  }

  lemma FirstOffset(m: nat)
    requires m > 0
    ensures OffsetDebt(Funded(m), FirstDebt(m)) == Ok(Once(m))
  {
    var total := 2 * m * DIGITS;
    DivUnique(FirstDebt(m) * DIGITS, total, 100_000_000_000_000_001);
    assert ComputeLoss(FirstDebt(m), total, 0) == Ok(Loss(100_000_000_000_000_002, total));
  }

  lemma SecondOffset(m: nat)
    requires m > 0
    ensures OffsetDebt(Once(m), SecondDebt(m)) == Ok(Twice(m))
  {
    var total, e := Once(m).totalLUSDDeposits, 2 * m * DIGITS;
    DivUnique(SecondDebt(m) * DIGITS - e, total, 499_999_999_999_999_999);
    assert ComputeLoss(SecondDebt(m), total, e) == Ok(Loss(500_000_000_000_000_000, DIGITS));
  }

  /**
   * The bound on the excess is attained up to a factor of little more than two: for every `m`, two offsets
   * leave a deposit that exceeds its pool by `m - 1` units, where a 10^18-th of the largest pool is `2 * m`.
   */
  lemma ExcessIsAttained(m: nat)
    requires m > 0
    ensures Valid(Initial(1)) && Next(Initial(1), ToPool(0, 2 * m * DIGITS)) == Funded(m) && Valid(Funded(m))
    ensures OffsetDebt(Funded(m), FirstDebt(m)) == Ok(Once(m)) && Valid(Once(m))
    ensures OffsetDebt(Once(m), SecondDebt(m)) == Ok(Twice(m)) && Valid(Twice(m))
    ensures Compounded(Twice(m), Twice(m).deposits[0]) == Twice(m).totalLUSDDeposits + m - 1
    ensures Larger(Funded(m).totalLUSDDeposits, Larger(Once(m).totalLUSDDeposits, Twice(m).totalLUSDDeposits)) / DIGITS
         == 2 * m
  {
    FundedByDeposit(m);
    FirstOffset(m);
    OffsetValid(Funded(m), FirstDebt(m));
    SecondOffset(m);
    OffsetValid(Once(m), SecondDebt(m));
    TwiceCompounded(m);
    DivUnique(2 * m * DIGITS, DIGITS, 2 * m);
  }

  lemma TwiceCompounded(m: nat)
    requires m > 0
    ensures Compounded(Twice(m), Twice(m).deposits[0]) == Twice(m).totalLUSDDeposits + m - 1
  {
    var d, c := Twice(m).deposits[0], 2 * m * 449_999_999_999_999_999;
    DivUnique(d.initialValue * Twice(m).p, DIGITS, c);
    DivGalois(d.initialValue, 1_000_000_000, c + 1);
  }
}
