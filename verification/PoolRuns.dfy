/**
 * What the Stability Pool's accounting keeps over any run of deposits, withdrawals and offsets
 * (packages/contracts/contracts/StabilityPool.sol, lines 332-414, 515-642 and 748-849).
 */
module PoolRuns {
  import opened Arithmetic
  import opened Decimals
  import opened PoolState
  import opened Wrappers

  // ---------------------------------------------------------------- one offset

  /** The loss taken from all units covers the debt, less the error that was carried in. */
  lemma LossOfAll(debt: nat, total: nat, lastError: nat)
    requires 0 < debt < total && lastError <= debt * DIGITS
    ensures var r := ComputeLoss(debt, total, lastError);
            && r.Ok? && 0 < r.value.perUnitStaked <= DIGITS && 0 < r.value.error <= total
            && r.value.perUnitStaked * total == debt * DIGITS - lastError + r.value.error
  {
    var n := debt * DIGITS - lastError;
    DivBounds(n, total);
    assert (n / total + 1) * total == total * (n / total) + total;
    assert n < total * DIGITS;
    DivGalois(n, total, DIGITS);
    DivGalois(n, total, 0);
  }

  /** The product of two scales in one: the next product at most scales the last one by the factor. */
  lemma NextProductBelow(p: nat, scale: nat, factor: nat)
    requires factor < DIGITS
    ensures var (q, next) := NextProduct(p, scale, factor);
            && (next == scale ==> q <= p && q * DIGITS <= p * factor < (q + 1) * DIGITS)
            && (next != scale ==> next == scale + 1 && q <= SCALE_FACTOR * p && q < DIGITS
                                  && q * DIGITS <= p * factor * SCALE_FACTOR < (q + 1) * DIGITS)
  {
    var n := p * factor;
    DivBounds(n, DIGITS);
    DivBounds(n * SCALE_FACTOR, DIGITS);
    MulMonotone(p, p, factor, DIGITS);
    DivMonotone(n, p * DIGITS, DIGITS);
    DivCancel(p, DIGITS);
    MulMonotone(n, p * DIGITS, SCALE_FACTOR, SCALE_FACTOR);
    DivMonotone(n * SCALE_FACTOR, (SCALE_FACTOR * p) * DIGITS, DIGITS);
    DivCancel(SCALE_FACTOR * p, DIGITS);
  }

  /** The product can be kept exactly if, at the finer scale, it is at least one unit. */
  lemma NextProductPositive(p: nat, scale: nat, factor: nat)
    ensures NextProduct(p, scale, factor).0 > 0 <==> p * factor >= SCALE_FACTOR
  {
    var n := p * factor;
    DivGalois(n * SCALE_FACTOR, DIGITS, 1);
    DivGalois(n, DIGITS, SCALE_FACTOR);
    DivGalois(n, DIGITS, 1);
  }

  /** The part of each unit that an offset leaves, before the product is rounded. */
  function Left(s: Pool, debt: nat): int
    requires s.totalLUSDDeposits > 0
  {
    DIGITS - 1 - (debt * DIGITS - s.lastLUSDLossError) / s.totalLUSDDeposits
  }

  /**
   * When offsetting fails: beyond the deposits, for less than the error carried in, or when the product
   * would round to zero even at the finer scale; the two other assertions always hold.
   */
  lemma OffsetFails(s: Pool, debt: nat)
    requires Valid(s) && s.totalLUSDDeposits > 0 && debt > 0
    ensures var total, e := s.totalLUSDDeposits, s.lastLUSDLossError;
            OffsetDebt(s, debt).Err? <==>
              || debt > total
              || (debt < total && debt * DIGITS < e)
              || (debt < total && debt * DIGITS >= e &&
                  0 < s.p * Left(s, debt) < SCALE_FACTOR)
  {
    var total, e := s.totalLUSDDeposits, s.lastLUSDLossError;
    if debt < total && debt * DIGITS >= e {
      LossOfAll(debt, total, e);
      var loss := ComputeLoss(debt, total, e).value;
      assert Factor(loss) == Left(s, debt);
      if Factor(loss) > 0 {
        NextProductPositive(s.p, s.currentScale, Factor(loss));
        MulMonotone(1, s.p, 1, Factor(loss));
      }
    }
  }

  /** The product keeps its range, from 10^9 units on, exactly if it was large enough for the factor. */
  lemma NextProductInRange(p: nat, scale: nat, factor: nat)
    ensures NextProduct(p, scale, factor).0 >= SCALE_FACTOR <==> p * factor >= DIGITS
  {
    var n := p * factor;
    DivGalois(n * SCALE_FACTOR, DIGITS, SCALE_FACTOR);
    DivGalois(n, DIGITS, SCALE_FACTOR);
  }

  /** Whether an offset keeps the product at 10^9 units or more: it empties the pool, or leaves enough. */
  predicate LeavesEnough(s: Pool, debt: nat) {
    var total := s.totalLUSDDeposits;
    if total == 0 || debt == 0 then s.p >= SCALE_FACTOR
    else debt == total || Left(s, debt) == 0 || s.p * Left(s, debt) >= DIGITS
  }

  /** It does so exactly then; a failing one, and deposits and withdrawals, leave the product alone. */
  lemma ProductInRange(s: Pool, e: Event)
    requires Valid(s) && CanHappen(s, e)
    ensures Next(s, e).p >= SCALE_FACTOR <==>
            if e.Offset? && Outcome(s, e).Ok? then LeavesEnough(s, e.debt) else s.p >= SCALE_FACTOR
  {
    if e.Offset? && OffsetDebt(s, e.debt).Ok? && s.totalLUSDDeposits > 0 && 0 < e.debt < s.totalLUSDDeposits {
      LossOfAll(e.debt, s.totalLUSDDeposits, s.lastLUSDLossError);
      var loss := ComputeLoss(e.debt, s.totalLUSDDeposits, s.lastLUSDLossError).value;
      assert Factor(loss) == Left(s, e.debt);
      if Factor(loss) > 0 {
        NextProductInRange(s.p, s.currentScale, Factor(loss));
      }
    }
  }

  /** What an offset that succeeds does, in the three cases. */
  lemma OffsetCases(s: Pool, debt: nat)
    requires Valid(s) && OffsetDebt(s, debt).Ok?
    ensures var t, total := OffsetDebt(s, debt).value, s.totalLUSDDeposits;
            if total == 0 || debt == 0 then t == s
            else
              && debt <= total && t.totalLUSDDeposits == total - debt && t.deposits == s.deposits
              && ((debt == total && t.lastLUSDLossError == 0) || debt < total)
              && (t.currentEpoch == s.currentEpoch ==> Shrinks(s, debt, t))
              && (t.currentEpoch != s.currentEpoch ==> Empties(s, debt, t))
  {
    var total, e := s.totalLUSDDeposits, s.lastLUSDLossError;
    if total > 0 && debt > 0 && debt < total {
      LossOfAll(debt, total, e);
      var loss, t := ComputeLoss(debt, total, e).value, OffsetDebt(s, debt).value;
      if Factor(loss) > 0 {
        NextProductBelow(s.p, s.currentScale, Factor(loss));
        assert ShrinksBy(s, debt, t, loss.perUnitStaked);
      } else {
        assert DIGITS * total == debt * DIGITS - e + loss.error;
      }
    }
  }

  /** The pool is emptied: all deposits are of an earlier epoch now, and what is left is the error's doing. */
  ghost predicate Empties(s: Pool, debt: nat, t: Pool) {
    && t.p == DIGITS && t.currentScale == 0 && t.currentEpoch == s.currentEpoch + 1
    && t.totalLUSDDeposits * DIGITS + s.lastLUSDLossError >= t.lastLUSDLossError
    && t.totalLUSDDeposits * DIGITS <= t.lastLUSDLossError <= s.totalLUSDDeposits
  }

  /** Every deposit loses `loss` of each unit, or a little more. */
  ghost predicate ShrinksBy(s: Pool, debt: nat, t: Pool, loss: nat) {
    && 0 < loss < DIGITS && 0 < t.p && t.currentEpoch == s.currentEpoch && debt < s.totalLUSDDeposits
    && loss * s.totalLUSDDeposits == debt * DIGITS - s.lastLUSDLossError + t.lastLUSDLossError
    && 0 < t.lastLUSDLossError <= s.totalLUSDDeposits
    && ((t.currentScale == s.currentScale && t.p <= s.p && t.p * DIGITS <= s.p * (DIGITS - loss)
         && s.p * (DIGITS - loss) < (t.p + 1) * DIGITS)
        || (t.currentScale == s.currentScale + 1 && t.p <= SCALE_FACTOR * s.p && t.p < DIGITS
            && t.p * DIGITS <= s.p * (DIGITS - loss) * SCALE_FACTOR
            && s.p * (DIGITS - loss) * SCALE_FACTOR < (t.p + 1) * DIGITS))
  }

  ghost predicate Shrinks(s: Pool, debt: nat, t: Pool) {
    exists loss :: ShrinksBy(s, debt, t, loss)
  }

  // ---------------------------------------------------------------- validity

  lemma OffsetValid(s: Pool, debt: nat)
    requires Valid(s) && OffsetDebt(s, debt).Ok?
    ensures Valid(OffsetDebt(s, debt).value)
  {
    OffsetCases(s, debt);
    var t := OffsetDebt(s, debt).value;
    if t != s && t.currentEpoch == s.currentEpoch && s.totalLUSDDeposits > 0 && debt > 0 {
      forall d | d in t.deposits
        ensures DepositValid(t, d) && Depleted(t, d)
      {
        assert DepositValid(s, d) && Depleted(s, d);
      }
    }
  }

  /** A product that has come down leaves no deposit above its initial value. */
  lemma CompoundedAtMostInitial(s: Pool, d: Deposit)
    requires Valid(s) && DepositValid(s, d) && Depleted(s, d)
    ensures Compounded(s, d) <= d.initialValue
  {
    var v, q := d.initialValue, d.snapshots.p;
    if v > 0 {
      var scales := s.currentScale - d.snapshots.scale;
      if d.snapshots.epoch < s.currentEpoch {
        assert Shrunk(s, d) == 0;
      } else if scales == 0 {
        QuotientAtMost(v, s.p, q);
      } else if scales == 1 {
        QuotientAtMost(v, s.p, q * SCALE_FACTOR);
        DivDiv(v * s.p, q, SCALE_FACTOR);
      }
      assert Shrunk(s, d) <= v;
    }
  }

  lemma QuotientAtMost(v: nat, p: nat, q: nat)
    requires 0 < q && p <= q
    ensures v * p / q <= v
  {
    MulMonotone(v, v, p, q);
    DivGalois(v * p, q, v + 1);
    assert q * (v + 1) == v * q + q;
  }

  lemma FreshValid(s: Pool, value: nat, who: nat, total: nat)
    requires Valid(s) && who < |s.deposits|
    ensures Valid(s.(totalLUSDDeposits := total, deposits := s.deposits[who := Fresh(s, value)]))
  {
    var t := s.(totalLUSDDeposits := total, deposits := s.deposits[who := Fresh(s, value)]);
    forall d | d in t.deposits
      ensures DepositValid(t, d) && Depleted(t, d)
    {
      if d != Fresh(s, value) {
        assert d in s.deposits && DepositValid(s, d) && Depleted(s, d);
      }
    }
  }

  lemma NextValid(s: Pool, e: Event)
    requires Valid(s) && CanHappen(s, e)
    ensures Valid(Next(s, e)) && |Next(s, e).deposits| == |s.deposits|
  {
    if Outcome(s, e).Ok? {
      match e
      case Offset(debt) => OffsetValid(s, debt); OffsetCases(s, debt);
      case ToPool(who, amount) =>
        FreshValid(s, Compounded(s, s.deposits[who]) + amount, who, Next(s, e).totalLUSDDeposits);
      case FromPool(who, amount) =>
        var compounded := Compounded(s, s.deposits[who]);
        FreshValid(s, compounded - Min(amount, compounded), who, Next(s, e).totalLUSDDeposits);
    }
  }

  // ---------------------------------------------------------------- the exact worth of deposits

  /** `value * p / q`, `scales` scale changes later. */
  function Depreciated(value: nat, p: nat, q: nat, scales: nat): (x: real)
    requires q > 0
    ensures x >= 0.0
  {
    if scales == 0 then (value * p) as real / q as real
    else Depreciated(value, p, q, scales - 1) / 1_000_000_000.0
  }

  /** What a deposit is exactly worth: what compounding would give without rounding it down. */
  function WorthOf(s: Pool, d: Deposit): (x: real)
    requires DepositValid(s, d)
    ensures x >= 0.0
  {
    if d.initialValue == 0 || d.snapshots.epoch < s.currentEpoch then 0.0
    else Depreciated(d.initialValue, s.p, d.snapshots.p, s.currentScale - d.snapshots.scale)
  }

  predicate AllValid(s: Pool, ds: seq<Deposit>) {
    forall d :: d in ds ==> DepositValid(s, d)
  }

  /** What a deposit is worth in the state `s`. */
  function Worths(s: Pool): Deposit -> real {
    d => if DepositValid(s, d) then WorthOf(s, d) else 0.0
  }

  function Total(ds: seq<Deposit>, worth: Deposit -> real): real {
    if ds == [] then 0.0 else Total(ds[..|ds| - 1], worth) + worth(ds[|ds| - 1])
  }

  function TotalCompounded(s: Pool, ds: seq<Deposit>): nat
    requires AllValid(s, ds)
  {
    if ds == [] then 0 else TotalCompounded(s, ds[..|ds| - 1]) + Compounded(s, ds[|ds| - 1])
  }

  lemma FloorBelow(a: nat, d: nat)
    requires d > 0
    ensures 0.0 <= (a / d) as real <= a as real / d as real
  {
    DivGalois(a, d, 0);
    DivBounds(a, d);
    var x := a as real / d as real;
    assert x * d as real == a as real;
    assert (a / d) as real * d as real <= a as real;
  }

  /** A compounded deposit never is more than its exact worth. */
  lemma CompoundedAtMostWorth(s: Pool, d: Deposit)
    requires DepositValid(s, d)
    ensures Compounded(s, d) as real <= WorthOf(s, d)
  {
    if d.initialValue > 0 && d.snapshots.epoch == s.currentEpoch {
      var v, q := d.initialValue, d.snapshots.p;
      FloorBelow(v * s.p, q);
      assert Depreciated(v, s.p, q, 0) == (v * s.p) as real / q as real;
      if s.currentScale == d.snapshots.scale + 1 {
        FloorBelow(v * s.p / q, SCALE_FACTOR);
        assert Depreciated(v, s.p, q, 1) == Depreciated(v, s.p, q, 0) / 1_000_000_000.0;
      }
      assert Shrunk(s, d) as real <= WorthOf(s, d);
    }
  }

  lemma FloorAbove(a: nat, d: nat)
    requires d > 0
    ensures a as real / d as real < (a / d) as real + 1.0
  {
    DivBounds(a, d);
    DivGalois(a, d, 0);
    RealOfProduct(a / d + 1, d);
    assert a < (a / d + 1) * d;
    QuotientBelow(a as real, d as real, (a / d + 1) as real);
  }

  lemma QuotientBelow(a: real, d: real, q: real)
    requires d > 0.0 && a < q * d
    ensures a / d < q
  {
    assert a / d * d == a;
  }

  /** Through one scale change at most, a deposit is its exact worth truncated, although the code truncates twice. */
  lemma ShrunkIsWorth(s: Pool, d: Deposit)
    requires DepositValid(s, d) && d.initialValue > 0 && d.snapshots.epoch == s.currentEpoch
    requires s.currentScale <= d.snapshots.scale + 1
    ensures Shrunk(s, d) as real <= WorthOf(s, d) < Shrunk(s, d) as real + 1.0
  {
    var v, q := d.initialValue, d.snapshots.p;
    var n := v * s.p / q;
    FloorBelow(v * s.p, q);
    FloorAbove(v * s.p, q);
    assert Depreciated(v, s.p, q, 0) == (v * s.p) as real / q as real;
    if s.currentScale == d.snapshots.scale + 1 {
      assert Depreciated(v, s.p, q, 1) == Depreciated(v, s.p, q, 0) / 1_000_000_000.0;
      DivBounds(n, SCALE_FACTOR);
      FloorBelow(n, SCALE_FACTOR);
      assert n + 1 <= SCALE_FACTOR * (n / SCALE_FACTOR) + SCALE_FACTOR;
    }
  }

  /**
   * What a compounded deposit is: its exact worth, truncated, if it is of this epoch, has seen one scale
   * change at most, and is worth a 10^9-th of its initial value; and nothing otherwise.
   */
  lemma CompoundedIsWorth(s: Pool, d: Deposit)
    requires DepositValid(s, d)
    ensures if d.initialValue > 0 && d.snapshots.epoch == s.currentEpoch && s.currentScale <= d.snapshots.scale + 1
               && WorthOf(s, d) >= (d.initialValue / 1_000_000_000) as real
            then Compounded(s, d) as real <= WorthOf(s, d) < Compounded(s, d) as real + 1.0
            else Compounded(s, d) == 0
  {
    if d.initialValue > 0 && d.snapshots.epoch == s.currentEpoch && s.currentScale <= d.snapshots.scale + 1 {
      ShrunkIsWorth(s, d);
    }
  }

  /** What is cut off after two scale changes is at most the initial value over the product it was made at. */
  lemma CutOffIsSmall(s: Pool, d: Deposit)
    requires Valid(s) && DepositValid(s, d) && d.initialValue > 0 && d.snapshots.epoch == s.currentEpoch
    requires s.currentScale >= d.snapshots.scale + 2
    ensures WorthOf(s, d) * d.snapshots.p as real <= d.initialValue as real
  {
    var v, q := d.initialValue, d.snapshots.p;
    ScalesDivide(v, s.p, q, s.currentScale - d.snapshots.scale);
    var x := Depreciated(v, s.p, q, 0);
    assert x * q as real == (v * s.p) as real;
    MulMonotone(v, v, s.p, DIGITS);
    CutOffBound(WorthOf(s, d), x, q as real, v as real);
  }

  lemma CutOffBound(w: real, x: real, q: real, v: real)
    requires q > 0.0 && x * q <= v * DIGITS as real && w * DIGITS as real <= x
    ensures w * q <= v
  {
    assert w * DIGITS as real * q <= x * q;
  }

  lemma {:induction false} ScalesDivide(v: nat, p: nat, q: nat, scales: nat)
    requires q > 0 && scales >= 2
    ensures Depreciated(v, p, q, scales) * DIGITS as real <= Depreciated(v, p, q, 0)
  {
    if scales > 2 {
      ScalesDivide(v, p, q, scales - 1);
    } else {
      assert Depreciated(v, p, q, 1) == Depreciated(v, p, q, 0) / 1_000_000_000.0;
    }
  }

  /** An offset never makes a deposit worth more, also when it rounds at a finer scale afterwards. */
  lemma OffsetNeverRaises(s: Pool, debt: nat, t: Pool, d: Deposit)
    requires Valid(s) && OffsetDebt(s, debt) == Ok(t) && DepositValid(s, d)
    ensures DepositValid(t, d) && Compounded(t, d) <= Compounded(s, d)
  {
    OffsetCases(s, debt);
    if s.totalLUSDDeposits > 0 && debt > 0 && t.currentEpoch == s.currentEpoch && d.initialValue > 0
       && d.snapshots.epoch == s.currentEpoch {
      var loss :| ShrinksBy(s, debt, t, loss);
      ShrunkFalls(s, debt, t, loss, d);
    }
  }

  lemma ShrunkFalls(s: Pool, debt: nat, t: Pool, loss: nat, d: Deposit)
    requires ShrinksBy(s, debt, t, loss) && DepositValid(s, d) && d.initialValue > 0
    requires d.snapshots.epoch == s.currentEpoch
    ensures DepositValid(t, d) && Shrunk(t, d) <= Shrunk(s, d)
  {
    var v, q := d.initialValue, d.snapshots.p;
    if t.currentScale == s.currentScale {
      QuotientMonotone(v, t.p, s.p, q);
      DivMonotone(v * t.p / q, v * s.p / q, SCALE_FACTOR);
    } else if s.currentScale == d.snapshots.scale {
      QuotientMonotone(v, t.p, SCALE_FACTOR * s.p, q);
      DivMonotone(v * t.p / q, v * (SCALE_FACTOR * s.p) / q, SCALE_FACTOR);
      DivDiv(v * (SCALE_FACTOR * s.p), q, SCALE_FACTOR);
      DivScale(v * s.p, q, SCALE_FACTOR);
      assert v * (SCALE_FACTOR * s.p) == SCALE_FACTOR * (v * s.p);
    }
    DivGalois(v * s.p, q, 0);
    DivGalois(v * t.p, q, 0);
  }

  lemma QuotientMonotone(v: nat, p: nat, p': nat, q: nat)
    requires q > 0 && p <= p'
    ensures v * p / q <= v * p' / q
  {
    MulMonotone(v, v, p, p');
    DivMonotone(v * p, v * p', q);
  }

  lemma {:induction false} TotalCompoundedAtMostWorth(s: Pool, ds: seq<Deposit>)
    requires AllValid(s, ds)
    ensures TotalCompounded(s, ds) as real <= Total(ds, Worths(s))
  {
    if ds != [] {
      TotalCompoundedAtMostWorth(s, ds[..|ds| - 1]);
      CompoundedAtMostWorth(s, ds[|ds| - 1]);
    }
  }

  // ---------------------------------------------------------------- the pool covers its deposits

  /** What all deposits are worth is no more than the pool, but for an error carried into an offset. */
  predicate Covered(s: Pool, carried: nat) {
    && Valid(s)
    && Total(s.deposits, Worths(s)) * DIGITS as real
       <= (s.totalLUSDDeposits * DIGITS + carried - s.lastLUSDLossError) as real
  }

  /** Worths are to each other as products are. */
  lemma {:induction false} Depreciates(v: nat, p: nat, p': nat, q: nat, scales: nat, d: nat, f: nat)
    requires q > 0 && p' * d <= p * f
    ensures Depreciated(v, p', q, scales) * d as real <= Depreciated(v, p, q, scales) * f as real
  {
    if scales == 0 {
      MulMonotone(p' * d, p * f, v, v);
      assert v * p' * d == p' * d * v && v * p * f == p * f * v;
      Quotients(v * p', d, v * p, f, q);
    } else {
      Depreciates(v, p, p', q, scales - 1, d, f);
      DividedBy(Depreciated(v, p', q, scales - 1), d as real, Depreciated(v, p, q, scales - 1), f as real);
    }
  }

  lemma DividedBy(a: real, d: real, b: real, f: real)
    requires a * d <= b * f
    ensures a / 1_000_000_000.0 * d <= b / 1_000_000_000.0 * f
  {
  }

  lemma Quotients(a: nat, d: nat, b: nat, f: nat, q: nat)
    requires q > 0 && a * d <= b * f
    ensures a as real / q as real * d as real <= b as real / q as real * f as real
  {
    var x, y := a as real / q as real, b as real / q as real;
    assert x * q as real == a as real && y * q as real == b as real;
    assert (a * d) as real == a as real * d as real && (b * f) as real == b as real * f as real;
    assert x * d as real * q as real <= y * f as real * q as real;
  }

  /** An offset that leaves some of the pool leaves each deposit at most the same part. */
  lemma DepositShrinks(s: Pool, debt: nat, t: Pool, loss: nat, d: Deposit)
    requires ShrinksBy(s, debt, t, loss) && DepositValid(s, d)
    ensures DepositValid(t, d)
    ensures WorthOf(t, d) * DIGITS as real <= WorthOf(s, d) * (DIGITS - loss) as real
  {
    if d.initialValue > 0 && d.snapshots.epoch == s.currentEpoch {
      var v, q, k, left := d.initialValue, d.snapshots.p, s.currentScale - d.snapshots.scale, DIGITS - loss;
      if t.currentScale == s.currentScale {
        Depreciates(v, s.p, t.p, q, k, DIGITS, left);
      } else {
        Depreciates(v, s.p, t.p, q, k, DIGITS, left * SCALE_FACTOR);
        assert (left * SCALE_FACTOR) as real == left as real * 1_000_000_000.0;
      }
    }
  }

  /** Of what `d` was worth in `x`, at most `f / g` is left in `y`. */
  predicate LeavesPart(x: Deposit -> real, y: Deposit -> real, d: Deposit, f: real, g: real) {
    y(d) * g <= x(d) * f
  }

  predicate AllLeavePart(ds: seq<Deposit>, x: Deposit -> real, y: Deposit -> real, f: real, g: real) {
    forall i {:trigger LeavesPart(x, y, ds[i], f, g)} :: 0 <= i < |ds| ==> LeavesPart(x, y, ds[i], f, g)
  }

  lemma {:induction false} TotalLeavesPart(ds: seq<Deposit>, x: Deposit -> real, y: Deposit -> real, f: real, g: real)
    requires AllLeavePart(ds, x, y, f, g)
    ensures Total(ds, y) * g <= Total(ds, x) * f
  {
    if ds != [] {
      var n := |ds| - 1;
      assert LeavesPart(x, y, ds[n], f, g);
      forall i | 0 <= i < n
        ensures LeavesPart(x, y, ds[..n][i], f, g)
      {
        assert LeavesPart(x, y, ds[i], f, g);
      }
      TotalLeavesPart(ds[..n], x, y, f, g);
      AddProducts(Total(ds[..n], y), y(ds[n]), g, Total(ds[..n], x), x(ds[n]), f);
    }
  }

  /** What an offset leaves in the same epoch. */
  lemma OffsetLeaves(s: Pool, debt: nat, t: Pool) returns (loss: nat)
    requires Valid(s) && OffsetDebt(s, debt) == Ok(t) && s.totalLUSDDeposits > 0 && debt > 0
    requires t.currentEpoch == s.currentEpoch
    ensures 0 < loss < DIGITS && t.deposits == s.deposits && t.totalLUSDDeposits == s.totalLUSDDeposits - debt
    ensures loss * s.totalLUSDDeposits == debt * DIGITS - s.lastLUSDLossError + t.lastLUSDLossError
    ensures AllLeavePart(s.deposits, Worths(s), Worths(t), (DIGITS - loss) as real, DIGITS as real)
  {
    OffsetCases(s, debt);
    loss :| ShrinksBy(s, debt, t, loss);
    AllShrink(s, debt, t, loss);
  }

  lemma AllShrink(s: Pool, debt: nat, t: Pool, loss: nat)
    requires Valid(s) && ShrinksBy(s, debt, t, loss)
    ensures AllLeavePart(s.deposits, Worths(s), Worths(t), (DIGITS - loss) as real, DIGITS as real)
  {
    forall i | 0 <= i < |s.deposits|
      ensures LeavesPart(Worths(s), Worths(t), s.deposits[i], (DIGITS - loss) as real, DIGITS as real)
    {
      assert DepositValid(s, s.deposits[i]);
      DepositShrinks(s, debt, t, loss, s.deposits[i]);
    }
  }

  lemma AddProducts(a: real, b: real, d: real, x: real, y: real, f: real)
    requires a * d <= x * f && b * d <= y * f
    ensures (a + b) * d <= (x + y) * f
  {
  }

  /** Losing `l` of each unit where the debt asks for that much, errors included, keeps the cover. */
  lemma LossCovered(w: real, w': real, d: real, l: real, total: real, debt: real, e: real, e': real, carried: real)
    requires 0.0 < l < d && w' * d <= w * (d - l) && w * d <= total * d + carried - e
    requires l * total == debt * d - e + e' && e <= carried
    ensures w' * d <= (total - debt) * d + carried - e'
  {
    var u := total * d + carried - e;
    assert w' * d * d <= w * (d - l) * d;
    assert w * (d - l) * d == w * d * (d - l);
    assert w * d * (d - l) <= u * (d - l);
    assert u * l == l * total * d + (carried - e) * l;
    assert (carried - e) * l >= 0.0;
    assert u * (d - l) <= (u - l * total) * d;
    assert w' * d <= u - l * total;
  }

  lemma {:induction false} NothingLeft(ds: seq<Deposit>, worth: Deposit -> real)
    requires forall d :: d in ds ==> worth(d) == 0.0
    ensures Total(ds, worth) == 0.0
  {
    if ds != [] {
      NothingLeft(ds[..|ds| - 1], worth);
    }
  }

  lemma OffsetEmpties(s: Pool, debt: nat, t: Pool, carried: nat)
    requires Valid(s) && OffsetDebt(s, debt) == Ok(t) && s.totalLUSDDeposits > 0 && debt > 0
    requires t.currentEpoch != s.currentEpoch && s.lastLUSDLossError <= carried
    ensures Total(t.deposits, Worths(t)) == 0.0
    ensures t.totalLUSDDeposits * DIGITS + carried >= t.lastLUSDLossError
  {
    OffsetCases(s, debt);
    forall d | d in t.deposits
      ensures Worths(t)(d) == 0.0
    {
      assert DepositValid(s, d);
    }
    NothingLeft(t.deposits, Worths(t));
  }

  lemma RealOfProduct(a: nat, b: nat)
    ensures (a * b) as real == a as real * b as real
  {
  }

  /** The worth left is covered by the total left. */
  lemma TotalCovered(ds: seq<Deposit>, x: Deposit -> real, y: Deposit -> real, loss: nat,
                     total: nat, debt: nat, e: nat, e': nat, carried: nat)
    requires 0 < loss < DIGITS && debt <= total && loss * total == debt * DIGITS - e + e' && e <= carried
    requires AllLeavePart(ds, x, y, (DIGITS - loss) as real, DIGITS as real)
    requires Total(ds, x) * DIGITS as real <= (total * DIGITS + carried - e) as real
    ensures Total(ds, y) * DIGITS as real <= ((total - debt) * DIGITS + carried - e') as real
  {
    TotalLeavesPart(ds, x, y, (DIGITS - loss) as real, DIGITS as real);
    WholeLossCovered(Total(ds, x), Total(ds, y), loss, total, debt, e, e', carried);
  }

  lemma WholeLossCovered(w: real, w': real, loss: nat, total: nat, debt: nat, e: nat, e': nat, carried: nat)
    requires 0 < loss < DIGITS && debt <= total && loss * total == debt * DIGITS - e + e' && e <= carried
    requires w' * DIGITS as real <= w * (DIGITS - loss) as real
    requires w * DIGITS as real <= (total * DIGITS + carried - e) as real
    ensures w' * DIGITS as real <= ((total - debt) * DIGITS + carried - e') as real
  {
    RealOfProduct(loss, total);
    LossCovered(w, w', DIGITS as real, loss as real, total as real, debt as real,
                e as real, e' as real, carried as real);
  }

  lemma OffsetCovered(s: Pool, debt: nat, t: Pool, carried: nat)
    requires Covered(s, carried) && OffsetDebt(s, debt) == Ok(t) && s.lastLUSDLossError <= carried
    ensures Covered(t, carried)
  {
    OffsetValid(s, debt);
    if s.totalLUSDDeposits > 0 && debt > 0 {
      if t.currentEpoch == s.currentEpoch {
        var loss := OffsetLeaves(s, debt, t);
        TotalCovered(s.deposits, Worths(s), Worths(t), loss, s.totalLUSDDeposits, debt,
                     s.lastLUSDLossError, t.lastLUSDLossError, carried);
      } else {
        OffsetEmpties(s, debt, t, carried);
      }
    }
  }

  /** The other deposits are worth what they were after one is replaced. */
  lemma {:induction false} TotalUpdate(ds: seq<Deposit>, x: Deposit -> real, y: Deposit -> real, i: nat, d: Deposit)
    requires i < |ds| && forall j :: 0 <= j < |ds| ==> x(ds[j]) == y(ds[j])
    ensures Total(ds[i := d], y) == Total(ds, x) - x(ds[i]) + y(d)
  {
    var n := |ds| - 1;
    if i == n {
      assert ds[i := d][..n] == ds[..n];
      SameTotal(ds[..n], x, y);
    } else {
      assert ds[i := d][..n] == ds[..n][i := d];
      TotalUpdate(ds[..n], x, y, i, d);
    }
  }

  lemma {:induction false} SameTotal(ds: seq<Deposit>, x: Deposit -> real, y: Deposit -> real)
    requires forall j :: 0 <= j < |ds| ==> x(ds[j]) == y(ds[j])
    ensures Total(ds, x) == Total(ds, y)
  {
    if ds != [] {
      SameTotal(ds[..|ds| - 1], x, y);
    }
  }

  lemma FreshWorth(s: Pool, value: nat)
    requires s.p > 0
    ensures DepositValid(s, Fresh(s, value)) && WorthOf(s, Fresh(s, value)) == value as real
  {
    var v, p := value as real, s.p as real;
    assert (value * s.p) as real == v * p;
    assert v * p / p == v;
    assert Depreciated(value, s.p, s.p, 0) == v;
  }

  /** Replacing a deposit by a new one, and the total by the difference to its compounded value. */
  lemma FreshCovered(s: Pool, who: nat, value: nat, total: nat, carried: nat)
    requires Covered(s, carried) && who < |s.deposits|
    requires total == s.totalLUSDDeposits + value - Compounded(s, s.deposits[who])
    ensures Covered(s.(totalLUSDDeposits := total, deposits := s.deposits[who := Fresh(s, value)]), carried)
  {
    var d, made := s.deposits[who], Fresh(s, value);
    var t := s.(totalLUSDDeposits := total, deposits := s.deposits[who := made]);
    FreshValid(s, value, who, total);
    FreshWorth(s, value);
    TotalUpdate(s.deposits, Worths(s), Worths(t), who, made);
    CompoundedAtMostWorth(s, d);
  }

  lemma NextCovered(s: Pool, e: Event, carried: nat)
    requires Covered(s, carried) && CanHappen(s, e) && (e.Offset? ==> s.lastLUSDLossError <= carried)
    ensures Covered(Next(s, e), carried)
  {
    if Outcome(s, e).Ok? {
      match e
      case Offset(debt) => OffsetCovered(s, debt, Next(s, e), carried);
      case ToPool(who, amount) =>
        FreshCovered(s, who, Compounded(s, s.deposits[who]) + amount, Next(s, e).totalLUSDDeposits, carried);
      case FromPool(who, amount) =>
        var compounded := Compounded(s, s.deposits[who]);
        FreshCovered(s, who, compounded - Min(amount, compounded), Next(s, e).totalLUSDDeposits, carried);
    }
  }

  // ---------------------------------------------------------------- deposits and withdrawals

  /** A new deposit is worth exactly what it was made with, until the next offset. */
  lemma FreshCompounds(s: Pool, value: nat)
    requires s.p > 0
    ensures DepositValid(s, Fresh(s, value)) && Compounded(s, Fresh(s, value)) == value
  {
    DivCancel(value, s.p);
  }

  /**
   * Depositing and withdrawing change the depositor's compounded deposit and the pool's total by the same
   * amount, at most the compounded deposit in a withdrawal, and nobody else's deposit.
   */
  lemma UpdatesExact(s: Pool, e: Event)
    requires Valid(s) && CanHappen(s, e) && !e.Offset? && Outcome(s, e).Ok?
    ensures var t, before := Next(s, e), Compounded(s, s.deposits[e.who]);
            && Valid(t) && |t.deposits| == |s.deposits|
            && (forall i :: 0 <= i < |s.deposits| && i != e.who ==>
                  t.deposits[i] == s.deposits[i] && Compounded(t, t.deposits[i]) == Compounded(s, s.deposits[i]))
            && Compounded(t, t.deposits[e.who])
               == (if e.ToPool? then before + e.amount else if e.amount < before then before - e.amount else 0)
            && t.totalLUSDDeposits - s.totalLUSDDeposits == Compounded(t, t.deposits[e.who]) - before
  {
    NextValid(s, e);
    var t, before := Next(s, e), Compounded(s, s.deposits[e.who]);
    var value := if e.ToPool? then before + e.amount else before - Min(e.amount, before);
    FreshCompounds(s, value);
    assert Fresh(t, value) == Fresh(s, value) == t.deposits[e.who];
    FreshCompounds(t, value);
    forall i | 0 <= i < |s.deposits| && i != e.who
      ensures t.deposits[i] == s.deposits[i] && Compounded(t, t.deposits[i]) == Compounded(s, s.deposits[i])
    {
      SameCompounded(s, t, s.deposits[i]);
    }
  }

  lemma SameCompounded(s: Pool, t: Pool, d: Deposit)
    requires t.p == s.p && t.currentScale == s.currentScale && t.currentEpoch == s.currentEpoch && DepositValid(s, d)
    ensures DepositValid(t, d) && Compounded(t, d) == Compounded(s, d)
  {
  }

  /** Withdrawing fails exactly without a deposit, or if the pool is short of what is withdrawn. */
  lemma WithdrawFails(s: Pool, who: nat, amount: nat)
    requires Valid(s) && who < |s.deposits|
    ensures Withdraw(s, who, amount).Err? <==>
            s.deposits[who].initialValue == 0
            || Min(amount, Compounded(s, s.deposits[who])) > s.totalLUSDDeposits
    ensures Withdraw(s, who, amount) == Err(NoDeposit) <==> s.deposits[who].initialValue == 0
    ensures Provide(s, who, amount).Err? <==> amount == 0
    ensures amount == 0 ==> Provide(s, who, amount) == Err(ZeroAmount)
  {
    CompoundedAtMostInitial(s, s.deposits[who]);
  }

  // ---------------------------------------------------------------- runs

  predicate HappensAt(ss: seq<Pool>, es: seq<Event>, i: nat)
    requires i < |es| && |ss| == |es| + 1
  {
    Valid(ss[i]) && CanHappen(ss[i], es[i]) && ss[i + 1] == Next(ss[i], es[i])
  }

  ghost predicate IsRun(ss: seq<Pool>, es: seq<Event>) {
    && |ss| == |es| + 1 && ss[0] == Initial(|ss[0].deposits|)
    && forall i :: 0 <= i < |es| ==> HappensAt(ss, es, i)
  }

  function Larger(a: nat, b: nat): nat {
    if a < b then b else a
  }

  /** The largest error that an offset has started from, in the first `i` events. */
  function Carried(ss: seq<Pool>, es: seq<Event>, i: nat): nat
    requires i <= |es| && |ss| == |es| + 1
  {
    if i == 0 then 0
    else
      var before := Carried(ss, es, i - 1);
      if es[i - 1].Offset? then Larger(before, ss[i - 1].lastLUSDLossError) else before
  }

  lemma {:induction false} InitialCovered(n: nat)
    ensures Covered(Initial(n), 0)
  {
    NothingLeft(Initial(n).deposits, Worths(Initial(n)));
  }

  lemma CoveredMore(s: Pool, carried: nat, more: nat)
    requires Covered(s, carried) && carried <= more
    ensures Covered(s, more)
  {
  }

  lemma {:induction false} RunCovered(ss: seq<Pool>, es: seq<Event>, i: nat)
    requires IsRun(ss, es) && i <= |es|
    ensures Covered(ss[i], Carried(ss, es, i))
  {
    if i == 0 {
      InitialCovered(|ss[0].deposits|);
    } else {
      RunCovered(ss, es, i - 1);
      assert HappensAt(ss, es, i - 1);
      CoveredMore(ss[i - 1], Carried(ss, es, i - 1), Carried(ss, es, i));
      NextCovered(ss[i - 1], es[i - 1], Carried(ss, es, i));
    }
  }

  /**
   * In every state of a run, all compounded deposits together exceed the pool by at most a 10^18-th of
   * the largest error an offset has started from, less the error pending.
   */
  lemma {:induction false} RunNearlyCovers(ss: seq<Pool>, es: seq<Event>, i: nat)
    requires IsRun(ss, es) && i <= |es|
    ensures Valid(ss[i])
    ensures TotalCompounded(ss[i], ss[i].deposits) * DIGITS
         <= ss[i].totalLUSDDeposits * DIGITS + Carried(ss, es, i) - ss[i].lastLUSDLossError
  {
    RunCovered(ss, es, i);
    TotalCompoundedAtMostWorth(ss[i], ss[i].deposits);
    WholeUnits(TotalCompounded(ss[i], ss[i].deposits), Total(ss[i].deposits, Worths(ss[i])),
               ss[i].totalLUSDDeposits * DIGITS + Carried(ss, es, i) - ss[i].lastLUSDLossError);
  }

  lemma WholeUnits(n: nat, w: real, bound: int)
    requires n as real <= w && w * DIGITS as real <= bound as real
    ensures n * DIGITS <= bound
  {
    assert (n * DIGITS) as real == n as real * DIGITS as real;
  }

  /** The largest total there has been in the first `i` events. */
  function Peak(ss: seq<Pool>, i: nat): nat
    requires i < |ss|
  {
    if i == 0 then ss[0].totalLUSDDeposits else Larger(Peak(ss, i - 1), ss[i].totalLUSDDeposits)
  }

  lemma {:induction false} ErrorsBelowPeak(ss: seq<Pool>, es: seq<Event>, i: nat)
    requires IsRun(ss, es) && i <= |es|
    ensures ss[i].lastLUSDLossError <= Peak(ss, i) && Carried(ss, es, i) <= Peak(ss, i)
  {
    if i > 0 {
      ErrorsBelowPeak(ss, es, i - 1);
      assert HappensAt(ss, es, i - 1);
      NextError(ss[i - 1], es[i - 1]);
      PeakHolds(ss, i - 1);
    }
  }

  lemma PeakHolds(ss: seq<Pool>, i: nat)
    requires i < |ss|
    ensures ss[i].totalLUSDDeposits <= Peak(ss, i)
  {
  }

  lemma NextError(s: Pool, e: Event)
    requires Valid(s) && CanHappen(s, e)
    ensures Next(s, e).lastLUSDLossError <= Larger(s.lastLUSDLossError, s.totalLUSDDeposits)
  {
    if e.Offset? && s.totalLUSDDeposits > 0 && 0 < e.debt < s.totalLUSDDeposits
       && s.lastLUSDLossError <= e.debt * DIGITS {
      LossOfAll(e.debt, s.totalLUSDDeposits, s.lastLUSDLossError);
    }
  }

  /**
   * So the pool covers all compounded deposits as long as no error has been carried into an offset, and
   * in any case up to less than a 10^18-th of the largest total there has been.
   */
  lemma {:induction false} RunCovers(ss: seq<Pool>, es: seq<Event>, i: nat)
    requires IsRun(ss, es) && i <= |es|
    ensures Valid(ss[i])
    ensures var all := TotalCompounded(ss[i], ss[i].deposits);
            && (Carried(ss, es, i) < ss[i].lastLUSDLossError + DIGITS ==> all <= ss[i].totalLUSDDeposits)
            && all <= ss[i].totalLUSDDeposits + Peak(ss, i) / DIGITS
  {
    RunNearlyCovers(ss, es, i);
    ErrorsBelowPeak(ss, es, i);
    DivGalois(Peak(ss, i), DIGITS, TotalCompounded(ss[i], ss[i].deposits) - ss[i].totalLUSDDeposits);
  }


  /** Whether the i-th event, if it is an offset, fails or leaves enough of the product. */
  predicate KeepsRange(s: Pool, e: Event)
    requires Valid(s) && CanHappen(s, e)
  {
    e.Offset? && Outcome(s, e).Ok? ==> LeavesEnough(s, e.debt)
  }

  predicate KeepsRangeAt(ss: seq<Pool>, es: seq<Event>, i: nat)
    requires i < |es| && |ss| == |es| + 1
  {
    HappensAt(ss, es, i) && KeepsRange(ss[i], es[i])
  }

  predicate InRangeAt(ss: seq<Pool>, i: nat)
    requires i < |ss|
  {
    ss[i].p >= SCALE_FACTOR
  }

  lemma StepInRange(ss: seq<Pool>, es: seq<Event>, i: nat)
    requires IsRun(ss, es) && i < |es| && InRangeAt(ss, i)
    ensures InRangeAt(ss, i + 1) <==> KeepsRangeAt(ss, es, i)
  {
    assert HappensAt(ss, es, i);
    ProductInRange(ss[i], es[i]);
  }

  /** The product has been in its range throughout a run exactly if every offset has left enough of it. */
  lemma {:induction false} RunInRange(ss: seq<Pool>, es: seq<Event>, i: nat)
    requires IsRun(ss, es) && i <= |es|
    ensures (forall k :: 0 <= k <= i ==> InRangeAt(ss, k)) <==> forall k :: 0 <= k < i ==> KeepsRangeAt(ss, es, k)
  {
    if i == 0 {
      assert InRangeAt(ss, 0);
    } else {
      RunInRange(ss, es, i - 1);
      if InRangeAt(ss, i - 1) {
        StepInRange(ss, es, i - 1);
      }
    }
  }

  // ---------------------------------------------------------------- the smallest product

  const MANY: nat := 10_000_000

  /** A deposit of ten million LUSD, an offset that nearly empties the pool, a deposit, and another offset. */
  const FULL := Pool(DIGITS, 0, 0, DIGITS * MANY, 0, [Deposit(DIGITS * MANY, Snapshots(DIGITS, 0, 0))])

  const NEARLY_EMPTY := FULL.(
    p := SCALE_FACTOR,
    totalLUSDDeposits := (SCALE_FACTOR + 1) * MANY,
    lastLUSDLossError := DIGITS * MANY)

  const REFILLED := NEARLY_EMPTY.(
    totalLUSDDeposits := DIGITS * MANY,
    deposits := [Deposit((DIGITS - 1) * MANY, Snapshots(SCALE_FACTOR, 0, 0))])

  const SMALLEST := REFILLED.(p := 1, currentScale := 1, totalLUSDDeposits := MANY)

  const MOST: nat := (DIGITS - SCALE_FACTOR - 1) * MANY

  lemma NearlyEmpty()
    ensures Valid(FULL) && OffsetDebt(FULL, MOST) == Ok(NEARLY_EMPTY)
  {
    assert ComputeLoss(MOST, DIGITS * MANY, 0) == Ok(Loss(DIGITS - SCALE_FACTOR, DIGITS * MANY));
  }

  lemma Refill()
    requires Valid(NEARLY_EMPTY)
    ensures Provide(NEARLY_EMPTY, 0, MOST) == Ok(REFILLED)
  {
    assert Compounded(NEARLY_EMPTY, FULL.deposits[0]) == SCALE_FACTOR * MANY;
    assert FULL.deposits[0 := REFILLED.deposits[0]] == REFILLED.deposits;
  }

  lemma Smallest()
    ensures OffsetDebt(REFILLED, (DIGITS - 1) * MANY) == Ok(SMALLEST)
  {
    assert ComputeLoss((DIGITS - 1) * MANY, DIGITS * MANY, DIGITS * MANY) == Ok(Loss(DIGITS - 1, DIGITS * MANY));
  }

  /** Two offsets that nearly empty the pool, and a deposit between them, bring the product down to one unit. */
  lemma ProductReachesOne()
    ensures Valid(Initial(1)) && Provide(Initial(1), 0, DIGITS * MANY) == Ok(FULL) && Valid(FULL)
    ensures OffsetDebt(FULL, MOST) == Ok(NEARLY_EMPTY) && Valid(NEARLY_EMPTY)
    ensures Provide(NEARLY_EMPTY, 0, MOST) == Ok(REFILLED)
    ensures OffsetDebt(REFILLED, (DIGITS - 1) * MANY) == Ok(SMALLEST) && SMALLEST.p == 1
  {
    assert Initial(1).deposits == [NO_DEPOSIT];
    assert [NO_DEPOSIT][0 := FULL.deposits[0]] == FULL.deposits;
    NearlyEmpty();
    OffsetValid(FULL, MOST);
    Refill();
    Smallest();
  }
}
