/**
 * How fairly offsets fall on deposits (packages/contracts/contracts/StabilityPool.sol, lines 532-622): what each
 * loses against the part that the debt is of the pool.
 */
module PoolFairness {
  import opened Arithmetic
  import opened Decimals
  import opened PoolRuns
  import opened PoolState
  import opened Wrappers

  // ---------------------------------------------------------------- each deposit's part

  /** What one unit of the product is worth to a deposit. */
  function UnitWorth(s: Pool, d: Deposit): (x: real)
    requires DepositValid(s, d)
    ensures x >= 0.0
  {
    if d.initialValue == 0 || d.snapshots.epoch < s.currentEpoch then 0.0
    else Depreciated(d.initialValue, 1, d.snapshots.p, s.currentScale - d.snapshots.scale)
  }

  lemma {:induction false} OneMoreUnit(v: nat, p: nat, q: nat, scales: nat)
    requires q > 0
    ensures Depreciated(v, p + 1, q, scales) == Depreciated(v, p, q, scales) + Depreciated(v, 1, q, scales)
  {
    if scales == 0 {
      assert (v * (p + 1)) as real == (v * p) as real + (v * 1) as real;
    } else {
      OneMoreUnit(v, p, q, scales - 1);
    }
  }

  lemma DepositKeeps(s: Pool, debt: nat, t: Pool, loss: nat, d: Deposit)
    requires ShrinksBy(s, debt, t, loss) && DepositValid(s, d)
    requires d.initialValue > 0 && d.snapshots.epoch == s.currentEpoch
    ensures DepositValid(t, d)
    ensures WorthOf(s, d) * (DIGITS - loss) as real <= (WorthOf(t, d) + UnitWorth(t, d)) * DIGITS as real
  {
    var v, q, k, left := d.initialValue, d.snapshots.p, s.currentScale - d.snapshots.scale, DIGITS - loss;
    if t.currentScale == s.currentScale {
      KeepsAtScale(v, s.p, t.p, q, k, left);
    } else {
      KeepsAtNextScale(v, s.p, t.p, q, k, left);
    }
  }

  lemma KeepsAtScale(v: nat, p: nat, p': nat, q: nat, k: nat, left: nat)
    requires q > 0 && p * left <= (p' + 1) * DIGITS
    ensures Depreciated(v, p, q, k) * left as real
         <= (Depreciated(v, p', q, k) + Depreciated(v, 1, q, k)) * DIGITS as real
  {
    Depreciates(v, p' + 1, p, q, k, left, DIGITS);
    OneMoreUnit(v, p', q, k);
  }

  lemma KeepsAtNextScale(v: nat, p: nat, p': nat, q: nat, k: nat, left: nat)
    requires q > 0 && p * left * SCALE_FACTOR <= (p' + 1) * DIGITS
    ensures Depreciated(v, p, q, k) * left as real
         <= (Depreciated(v, p', q, k + 1) + Depreciated(v, 1, q, k + 1)) * DIGITS as real
  {
    KeepsFiner(v, p, p', q, k, left, Depreciated(v, p, q, k), Depreciated(v, p' + 1, q, k));
    OneMoreUnit(v, p', q, k + 1);
    FinerScale(Depreciated(v, p, q, k), left, Depreciated(v, p' + 1, q, k), Depreciated(v, p' + 1, q, k + 1));
  }

  lemma KeepsFiner(v: nat, p: nat, p': nat, q: nat, k: nat, left: nat, x: real, y: real)
    requires q > 0 && p * left * SCALE_FACTOR <= (p' + 1) * DIGITS
    requires x == Depreciated(v, p, q, k) && y == Depreciated(v, p' + 1, q, k)
    ensures x * (left * SCALE_FACTOR) as real <= y * DIGITS as real
  {
    Depreciates(v, p' + 1, p, q, k, left * SCALE_FACTOR, DIGITS);
  }

  lemma FinerScale(x: real, left: nat, y: real, z: real)
    requires x * (left * SCALE_FACTOR) as real <= y * DIGITS as real && z == y / 1_000_000_000.0
    ensures x * left as real <= z * DIGITS as real
  {
    assert (left * SCALE_FACTOR) as real == left as real * 1_000_000_000.0;
  }

  /** From `x` to `y`, between the exact part less the error and the exact part with both roundings. */
  predicate LosesFairly(x: real, y: real, unit: real, total: nat, debt: nat, error: nat)
    requires debt <= total
  {
    && y * (total as real * DIGITS as real) <= x * ((total - debt) * DIGITS + error) as real
    && x * ((total - debt) * DIGITS - total) as real <= (y + unit) * (total as real * DIGITS as real)
  }

  /**
   * An offset of `debt` takes from each deposit the part that the debt is of the pool: too little by no
   * more than the error carried in, and too much by no more than one unit per unit staked and less than
   * one unit of the product.
   */
  lemma FairLoss(s: Pool, debt: nat, t: Pool, d: Deposit)
    requires Valid(s) && OffsetDebt(s, debt) == Ok(t) && s.totalLUSDDeposits > 0 && debt > 0
    requires DepositValid(s, d)
    ensures DepositValid(t, d) && debt <= s.totalLUSDDeposits
    ensures LosesFairly(WorthOf(s, d), WorthOf(t, d), UnitWorth(t, d), s.totalLUSDDeposits, debt, s.lastLUSDLossError)
  {
    OffsetCases(s, debt);
    if d.initialValue > 0 && d.snapshots.epoch == s.currentEpoch == t.currentEpoch {
      var loss :| ShrinksBy(s, debt, t, loss);
      FairShrink(s, debt, t, loss, d);
    } else {
      NothingWorthLeft(WorthOf(s, d), s.totalLUSDDeposits, debt, s.lastLUSDLossError);
    }
  }

  lemma NothingWorthLeft(x: real, total: nat, debt: nat, error: nat)
    requires x >= 0.0 && debt <= total && (x == 0.0 || (total - debt) * DIGITS <= total)
    ensures LosesFairly(x, 0.0, 0.0, total, debt, error)
  {
    var most, least := ((total - debt) * DIGITS + error) as real, ((total - debt) * DIGITS - total) as real;
    assert x * most >= 0.0;
    assert x * least <= 0.0;
  }

  lemma FairShrink(s: Pool, debt: nat, t: Pool, loss: nat, d: Deposit)
    requires ShrinksBy(s, debt, t, loss) && DepositValid(s, d)
    requires d.initialValue > 0 && d.snapshots.epoch == s.currentEpoch
    ensures DepositValid(t, d) && debt <= s.totalLUSDDeposits
    ensures LosesFairly(WorthOf(s, d), WorthOf(t, d), UnitWorth(t, d), s.totalLUSDDeposits, debt, s.lastLUSDLossError)
  {
    DepositShrinks(s, debt, t, loss, d);
    DepositKeeps(s, debt, t, loss, d);
    FairParts(WorthOf(s, d), WorthOf(t, d), UnitWorth(t, d), loss, s.totalLUSDDeposits, debt,
              s.lastLUSDLossError, t.lastLUSDLossError);
  }

  lemma FairParts(x: real, y: real, unit: real, loss: nat, total: nat, debt: nat, e: nat, e': nat)
    requires x >= 0.0 && loss < DIGITS && loss * total == debt * DIGITS - e + e' && e' <= total && debt <= total
    requires y * DIGITS as real <= x * (DIGITS - loss) as real <= (y + unit) * DIGITS as real
    ensures LosesFairly(x, y, unit, total, debt, e)
  {
    var left := DIGITS - loss;
    var kept := left * total;
    assert kept == (total - debt) * DIGITS + e - e';
    RealOfProduct(left, total);
    ScaledParts(x, y, unit, left as real, total as real, DIGITS as real, kept as real,
                ((total - debt) * DIGITS - total) as real, ((total - debt) * DIGITS + e) as real);
  }

  lemma ScaledParts(x: real, y: real, unit: real, f: real, n: real, d: real, kept: real, least: real, most: real)
    requires x >= 0.0 && n >= 0.0 && y * d <= x * f <= (y + unit) * d && kept == f * n && least <= kept <= most
    ensures y * (n * d) <= x * most && x * least <= (y + unit) * (n * d)
  {
    assert x * f * n == x * kept;
    assert y * d * n <= x * f * n <= (y + unit) * d * n;
    assert x * least <= x * kept <= x * most;
  }

  // ---------------------------------------------------------------- over a run

  /** An offset that succeeds and changes something. */
  predicate Effective(s: Pool, e: Event) {
    Valid(s) && e.Offset? && e.debt > 0 && s.totalLUSDDeposits > 0 && OffsetDebt(s, e.debt).Ok?
  }

  predicate Owns(e: Event, who: nat) {
    !e.Offset? && e.who == who
  }

  /** Between the `j`-th and the `i`-th state, the depositor neither deposits nor withdraws. */
  ghost predicate Untouched(ss: seq<Pool>, es: seq<Event>, j: nat, i: nat, who: nat) {
    && |ss| == |es| + 1 && j <= i <= |es| && Valid(ss[j]) && who < |ss[j].deposits|
    && forall k :: j <= k < i ==> HappensAt(ss, es, k) && !Owns(es[k], who)
  }

  function Worth(s: Pool, d: Deposit): (x: real)
    ensures x >= 0.0
  {
    if DepositValid(s, d) then WorthOf(s, d) else 0.0
  }

  /** The part of a deposit that an event ideally leaves: of the pool, the part that the debt is not. */
  function IdealPart(s: Pool, e: Event): (x: real)
    ensures 0.0 <= x <= 1.0
  {
    if Effective(s, e) then
      OffsetCases(s, e.debt);
      PartOfWhole(s.totalLUSDDeposits - e.debt, s.totalLUSDDeposits);
      (s.totalLUSDDeposits - e.debt) as real / s.totalLUSDDeposits as real
    else 1.0
  }

  lemma PartOfWhole(a: nat, b: nat)
    requires a <= b && b > 0
    ensures 0.0 <= a as real / b as real <= 1.0
  {
  }

  /** What an event may take too little: the deposit's part of the error that the offset starts from. */
  function TooLittle(s: Pool, e: Event, d: Deposit): (x: real)
    ensures x >= 0.0
  {
    if Effective(s, e) then PartOf(Worth(s, d), s.lastLUSDLossError, s.totalLUSDDeposits) else 0.0
  }

  /** `x * error / total`, in units. */
  function PartOf(x: real, error: nat, total: nat): (y: real)
    requires x >= 0.0 && total > 0
    ensures y >= 0.0
  {
    x * error as real / (total as real * DIGITS as real)
  }

  /** What an event may take too much: a 10^18-th, and less than a unit of the product. */
  function TooMuch(s: Pool, e: Event, t: Pool, d: Deposit): (x: real)
    ensures x >= 0.0
  {
    if Effective(s, e) && DepositValid(t, d) then Worth(s, d) / DIGITS as real + UnitWorth(t, d) else 0.0
  }

  /** `y` is the part of `x`, or up to `little` more or `much` less. */
  predicate Fairly(x: real, y: real, part: real, little: real, much: real) {
    y <= x * part + little && x * part <= y + much
  }

  /** What one event does to a deposit that it does not replace. */
  lemma EventFair(s: Pool, e: Event, d: Deposit)
    requires Valid(s) && CanHappen(s, e) && DepositValid(s, d)
    ensures DepositValid(Next(s, e), d)
    ensures Fairly(Worth(s, d), Worth(Next(s, e), d), IdealPart(s, e), TooLittle(s, e, d), TooMuch(s, e, Next(s, e), d))
  {
    if Effective(s, e) {
      OffsetFair(s, e.debt, Next(s, e), d, IdealPart(s, e), TooLittle(s, e, d), TooMuch(s, e, Next(s, e), d));
    } else {
      SameWorth(s, Next(s, e), d);
    }
  }

  lemma SameWorth(s: Pool, t: Pool, d: Deposit)
    requires t.p == s.p && t.currentScale == s.currentScale && t.currentEpoch == s.currentEpoch && DepositValid(s, d)
    ensures DepositValid(t, d) && Worth(t, d) == Worth(s, d)
  {
  }

  lemma OffsetFair(s: Pool, debt: nat, t: Pool, d: Deposit, part: real, little: real, much: real)
    requires Valid(s) && OffsetDebt(s, debt) == Ok(t) && s.totalLUSDDeposits > 0 && debt > 0 && DepositValid(s, d)
    requires debt <= s.totalLUSDDeposits
    requires part == (s.totalLUSDDeposits - debt) as real / s.totalLUSDDeposits as real
    requires little == PartOf(Worth(s, d), s.lastLUSDLossError, s.totalLUSDDeposits)
    requires DepositValid(t, d) ==> much == Worth(s, d) / DIGITS as real + UnitWorth(t, d)
    ensures DepositValid(t, d) && Fairly(Worth(s, d), Worth(t, d), part, little, much)
  {
    FairLoss(s, debt, t, d);
    Parts(WorthOf(s, d), WorthOf(t, d), UnitWorth(t, d), s.totalLUSDDeposits, debt, s.lastLUSDLossError,
          part, little, much);
  }

  lemma Parts(x: real, y: real, unit: real, total: nat, debt: nat, error: nat, part: real, little: real, much: real)
    requires x >= 0.0 && debt <= total && total > 0 && LosesFairly(x, y, unit, total, debt, error)
    requires part == (total - debt) as real / total as real && little == PartOf(x, error, total)
    requires much == x / DIGITS as real + unit
    ensures Fairly(x, y, part, little, much)
  {
    var n, d, left := total as real, DIGITS as real, (total - debt) as real;
    assert ((total - debt) * DIGITS + error) as real == left * d + error as real;
    assert ((total - debt) * DIGITS - total) as real == left * d - n;
    SumOfParts(x, left, error as real, n, d);
    Cancel(y, x * (left / n) + little, n * d);
    Cancel(x * (left / n) - x / d, y + unit, n * d);
  }

  lemma SumOfParts(x: real, left: real, e: real, n: real, d: real)
    requires n > 0.0 && d > 0.0
    ensures (x * (left / n) + x * e / (n * d)) * (n * d) == x * (left * d + e)
    ensures (x * (left / n) - x / d) * (n * d) == x * (left * d - n)
  {
    assert x * (left / n) * (n * d) == x * (left * d);
    assert x / d * (n * d) == x * n;
    assert x * e / (n * d) * (n * d) == x * e;
  }

  lemma Cancel(a: real, b: real, m: real)
    requires m > 0.0 && a * m <= b * m
    ensures a <= b
  {
  }

  /** `x`, reduced to its part at each step. */
  function Follow(x: real, part: nat -> real, j: nat, i: nat): real
    requires j <= i
  {
    if i == j then x else Follow(x, part, j, i - 1) * part(i - 1)
  }

  predicate FairAt(x: nat -> real, part: nat -> real, little: nat -> real, much: nat -> real, k: nat) {
    && 0.0 <= part(k) <= 1.0 && little(k) >= 0.0 && much(k) >= 0.0
    && Fairly(x(k), x(k + 1), part(k), little(k), much(k))
  }

  /** Parts multiply, and errors only add up. */
  lemma {:induction false} FairSteps(x: nat -> real, part: nat -> real, little: nat -> real, much: nat -> real,
                                     j: nat, i: nat)
    requires j <= i && forall k :: j <= k < i ==> FairAt(x, part, little, much, k)
    ensures Sum(little, j, i) >= 0.0 && Sum(much, j, i) >= 0.0
    ensures Follow(x(j), part, j, i) - Sum(much, j, i) <= x(i) <= Follow(x(j), part, j, i) + Sum(little, j, i)
  {
    if i > j {
      var k := i - 1;
      FairSteps(x, part, little, much, j, k);
      assert FairAt(x, part, little, much, k);
      FairStep(x(k), x(i), Follow(x(j), part, j, k), part(k), Sum(little, j, k), little(k), Sum(much, j, k), much(k));
    }
  }

  lemma FairStep(x: real, y: real, ideal: real, part: real, littles: real, little: real, muches: real, much: real)
    requires 0.0 <= part <= 1.0 && littles >= 0.0 && muches >= 0.0
    requires ideal - muches <= x <= ideal + littles && Fairly(x, y, part, little, much)
    ensures ideal * part - (muches + much) <= y <= ideal * part + (littles + little)
  {
    var ip, xp, lp, mp := ideal * part, x * part, littles * part, muches * part;
    assert xp <= (ideal + littles) * part == ip + lp;
    assert ip - mp == (ideal - muches) * part <= xp;
    assert lp <= littles && mp <= muches;
  }

  // A deposit's worth, and what each event does to it, by the number of the state or event.

  ghost function WorthAt(ss: seq<Pool>, d: Deposit): nat -> real {
    (k: nat) => if k < |ss| then Worth(ss[k], d) else 0.0
  }

  ghost function PartAt(ss: seq<Pool>, es: seq<Event>): nat -> real {
    (k: nat) => if k < |es| && k < |ss| then IdealPart(ss[k], es[k]) else 1.0
  }

  ghost function TooLittleAt(ss: seq<Pool>, es: seq<Event>, d: Deposit): nat -> real {
    (k: nat) => if k < |es| && k < |ss| then TooLittle(ss[k], es[k], d) else 0.0
  }

  ghost function TooMuchAt(ss: seq<Pool>, es: seq<Event>, d: Deposit): nat -> real {
    (k: nat) => if k < |es| && k + 1 < |ss| then TooMuch(ss[k], es[k], ss[k + 1], d) else 0.0
  }

  lemma DepositStays(s: Pool, e: Event, who: nat)
    requires Valid(s) && CanHappen(s, e) && who < |s.deposits| && !Owns(e, who)
    ensures var t := Next(s, e); Valid(t) && |t.deposits| == |s.deposits| && t.deposits[who] == s.deposits[who]
  {
    NextValid(s, e);
    if e.Offset? && Outcome(s, e).Ok? {
      OffsetCases(s, e.debt);
    }
  }

  lemma {:induction false} UntouchedStays(ss: seq<Pool>, es: seq<Event>, j: nat, i: nat, who: nat)
    requires Untouched(ss, es, j, i, who)
    ensures Valid(ss[i]) && |ss[i].deposits| == |ss[j].deposits| && ss[i].deposits[who] == ss[j].deposits[who]
    decreases i
  {
    if i > j {
      UntouchedStays(ss, es, j, i - 1, who);
      assert HappensAt(ss, es, i - 1) && !Owns(es[i - 1], who);
      DepositStays(ss[i - 1], es[i - 1], who);
    }
  }

  lemma RunFairAt(ss: seq<Pool>, es: seq<Event>, d: Deposit, k: nat)
    requires k < |es| && |ss| == |es| + 1 && HappensAt(ss, es, k) && DepositValid(ss[k], d)
    ensures FairAt(WorthAt(ss, d), PartAt(ss, es), TooLittleAt(ss, es, d), TooMuchAt(ss, es, d), k)
  {
    EventFair(ss[k], es[k], d);
  }

  /**
   * Over any part of a run in which its owner leaves it alone, a deposit follows what it would be if each
   * offset took exactly the debt's part of the pool: it is above that by at most its parts of the errors
   * that offsets have started from, and below by at most a 10^18-th for each offset and units of the product.
   */
  lemma {:induction false} RunFair(ss: seq<Pool>, es: seq<Event>, j: nat, i: nat, who: nat)
    requires Untouched(ss, es, j, i, who)
    ensures Valid(ss[i]) && |ss[i].deposits| == |ss[j].deposits| && ss[i].deposits[who] == ss[j].deposits[who]
    ensures var d := ss[j].deposits[who];
            var ideal := Follow(Worth(ss[j], d), PartAt(ss, es), j, i);
            ideal - Sum(TooMuchAt(ss, es, d), j, i) <= Worth(ss[i], d) <= ideal + Sum(TooLittleAt(ss, es, d), j, i)
  {
    var d := ss[j].deposits[who];
    UntouchedStays(ss, es, j, i, who);
    forall k | j <= k < i
      ensures FairAt(WorthAt(ss, d), PartAt(ss, es), TooLittleAt(ss, es, d), TooMuchAt(ss, es, d), k)
    {
      UntouchedStays(ss, es, j, k, who);
      assert HappensAt(ss, es, k) && ss[k].deposits[who] == d;
      RunFairAt(ss, es, d, k);
    }
    FairSteps(WorthAt(ss, d), PartAt(ss, es), TooLittleAt(ss, es, d), TooMuchAt(ss, es, d), j, i);
  }

  /** A deposit that counts: of this epoch, at most one scale change old, and worth a 10^9-th of what it was. */
  predicate Counts(s: Pool, d: Deposit) {
    && DepositValid(s, d) && d.initialValue > 0 && d.snapshots.epoch == s.currentEpoch
    && s.currentScale <= d.snapshots.scale + 1 && Worth(s, d) >= (d.initialValue / 1_000_000_000) as real
  }

  /**
   * So does the compounded deposit, which loses less than another unit; a deposit that does not count any
   * more is nothing.
   */
  lemma {:induction false} RunCompoundedFair(ss: seq<Pool>, es: seq<Event>, j: nat, i: nat, who: nat)
    requires Untouched(ss, es, j, i, who)
    ensures Valid(ss[i]) && |ss[i].deposits| == |ss[j].deposits| && ss[i].deposits[who] == ss[j].deposits[who]
    ensures var d := ss[j].deposits[who];
            var ideal := Follow(Worth(ss[j], d), PartAt(ss, es), j, i);
            && DepositValid(ss[i], d)
            && (if Counts(ss[i], d) then
                  && ideal - Sum(TooMuchAt(ss, es, d), j, i) - 1.0 < Compounded(ss[i], d) as real
                  && Compounded(ss[i], d) as real <= ideal + Sum(TooLittleAt(ss, es, d), j, i)
                else Compounded(ss[i], d) == 0)
  {
    RunFair(ss, es, j, i, who);
    CompoundedIsWorth(ss[i], ss[j].deposits[who]);
  }

  // ---------------------------------------------------------------- the error feedback

  /** What offsets are to a deposit, by numbers: to `x` of worth from a pool `total`, and its error. */
  datatype Standing = Standing(x: real, total: nat, error: nat)

  /** Above its part of the pool by no more than its part of the error `carried`, less the error pending. */
  predicate NotAbove(w: real, pool: nat, a: Standing, carried: nat) {
    a.x * (pool as real * DIGITS as real) <= w * (a.total * DIGITS + carried - a.error) as real
  }

  /** Below its part of the pool by no more than its part of the pending error, and `units`. */
  predicate NotBelow(w: real, pool: nat, a: Standing, units: real) {
    w * (a.total * DIGITS - a.error) as real <= (a.x + units) * (pool as real * DIGITS as real)
  }

  /** What one offset does: it takes `loss` of each unit, or empties the pool. */
  predicate StandingStep(a: Standing, b: Standing, unit: real, loss: nat) {
    && b.x >= 0.0 && unit >= 0.0
    && if loss < DIGITS then
         && loss * a.total == (a.total - b.total) * DIGITS - a.error + b.error
         && b.x * DIGITS as real <= a.x * (DIGITS - loss) as real <= (b.x + unit) * DIGITS as real
       else b.x == 0.0 && b.total * DIGITS <= b.error <= b.total * DIGITS + a.error
  }

  lemma StepNotAbove(w: real, pool: nat, a: Standing, b: Standing, unit: real, loss: nat, carried: nat)
    requires w >= 0.0 && StandingStep(a, b, unit, loss) && a.error <= carried && NotAbove(w, pool, a, carried)
    ensures NotAbove(w, pool, b, carried)
  {
    var u, v := (a.total * DIGITS + carried - a.error) as real, (b.total * DIGITS + carried - b.error) as real;
    if loss < DIGITS {
      var d, f, c := DIGITS as real, (DIGITS - loss) as real, pool as real * DIGITS as real;
      PoolLess(a.total, b.total, a.error, b.error, loss, carried);
      ChainAbove(a.x, b.x, c, w, u, v, f, d);
    } else {
      RealMulMonotone(0.0, w, 0.0, v);
    }
  }

  lemma StepNotBelow(w: real, pool: nat, a: Standing, b: Standing, unit: real, units: real, loss: nat)
    requires w >= 0.0 && units >= 0.0 && StandingStep(a, b, unit, loss) && NotBelow(w, pool, a, units)
    ensures NotBelow(w, pool, b, units + unit)
  {
    var u, v := (a.total * DIGITS - a.error) as real, (b.total * DIGITS - b.error) as real;
    var c := pool as real * DIGITS as real;
    if loss < DIGITS {
      var d, f := DIGITS as real, (DIGITS - loss) as real;
      PoolLessError(a.total, b.total, a.error, b.error, loss);
      ChainBelow(a.x, b.x, units, unit, c, w, u, v, f, d);
    } else {
      Signs(w, v, b.x + (units + unit), c);
    }
  }

  lemma Signs(w: real, v: real, x: real, c: real)
    requires w >= 0.0 && v <= 0.0 && x >= 0.0 && c >= 0.0
    ensures w * v <= 0.0 <= x * c
  {
  }

  /** What the pool has with the error, times the part left, is at most what it has then. */
  lemma PoolLess(total: nat, total': nat, e: nat, e': nat, loss: nat, carried: nat)
    requires loss * total == (total - total') * DIGITS - e + e' && e <= carried && loss < DIGITS
    ensures (total * DIGITS + carried - e) as real * (DIGITS - loss) as real
         <= (total' * DIGITS + carried - e') as real * DIGITS as real
  {
    var u := total * DIGITS + carried - e;
    assert total' * DIGITS + carried - e' == u - loss * total;
    LessLoss(u, loss, total, carried - e);
    RealProduct(u, DIGITS - loss);
  }

  lemma LessLoss(u: int, loss: nat, total: nat, rest: nat)
    requires u == total * DIGITS + rest
    ensures u * (DIGITS - loss) <= (u - loss * total) * DIGITS
  {
    var n := loss * total;
    assert u * loss == n * DIGITS + rest * loss;
    assert u * (DIGITS - loss) == u * DIGITS - u * loss;
  }

  lemma PoolLessError(total: nat, total': nat, e: nat, e': nat, loss: nat)
    requires loss * total == (total - total') * DIGITS - e + e' && loss < DIGITS
    ensures (total' * DIGITS - e') as real * DIGITS as real <= (total * DIGITS - e) as real * (DIGITS - loss) as real
  {
    var v := total * DIGITS - e;
    assert total' * DIGITS - e' == v - loss * total;
    assert v * loss == loss * total * DIGITS - e * loss;
    assert v * (DIGITS - loss) == v * DIGITS - v * loss;
    RealProduct(v, DIGITS - loss);
  }

  lemma RealProduct(a: int, b: int)
    ensures (a * b) as real == a as real * b as real
  {
  }

  lemma ChainAbove(x: real, y: real, c: real, w: real, u: real, v: real, f: real, d: real)
    requires w >= 0.0 && c >= 0.0 && f >= 0.0 && d > 0.0
    requires x * c <= w * u && y * d <= x * f && u * f <= v * d
    ensures y * c <= w * v
  {
    assert y * d * c <= x * f * c;
    assert x * c * f <= w * u * f;
    assert w * (u * f) <= w * (v * d);
    Cancel(y * c, w * v, d);
  }

  lemma ChainBelow(x: real, y: real, units: real, unit: real, c: real, w: real, u: real, v: real, f: real, d: real)
    requires w >= 0.0 && c >= 0.0 && 0.0 <= f <= d && d > 0.0 && units >= 0.0
    requires w * u <= (x + units) * c && x * f <= (y + unit) * d && v * d <= u * f
    ensures w * v <= (y + (units + unit)) * c
  {
    assert units * f <= units * d;
    var z := y + (units + unit);
    assert (x + units) * f <= z * d;
    assert (x + units) * f * c <= z * d * c;
    assert w * u * f <= (x + units) * c * f;
    assert w * (v * d) <= w * (u * f);
    Cancel(w * v, z * c, d);
  }

  predicate StandsAt(a: nat -> Standing, unit: nat -> real, loss: nat -> nat, k: nat) {
    unit(k) >= 0.0 && (a(k + 1) == a(k) || StandingStep(a(k), a(k + 1), unit(k), loss(k)))
  }

  lemma {:induction false} Stands(a: nat -> Standing, unit: nat -> real, loss: nat -> nat, j: nat, i: nat, carried: nat)
    requires j <= i && a(j).x >= 0.0
    requires forall k :: j <= k < i ==> StandsAt(a, unit, loss, k)
    requires forall k :: j <= k <= i ==> a(k).error <= carried
    ensures Sum(unit, j, i) >= 0.0
    ensures NotAbove(a(j).x, a(j).total, a(i), carried) && NotBelow(a(j).x, a(j).total, a(i), Sum(unit, j, i))
  {
    if i == j {
      StandsAtStart(a(j), carried);
    } else {
      var k := i - 1;
      Stands(a, unit, loss, j, k, carried);
      assert StandsAt(a, unit, loss, k);
      if a(i) == a(k) {
        MoreUnits(a(j).x, a(j).total, a(i), Sum(unit, j, k), unit(k));
      } else {
        StepNotAbove(a(j).x, a(j).total, a(k), a(i), unit(k), loss(k), carried);
        StepNotBelow(a(j).x, a(j).total, a(k), a(i), unit(k), Sum(unit, j, k), loss(k));
      }
    }
  }

  lemma StandsAtStart(a: Standing, carried: nat)
    requires a.x >= 0.0 && a.error <= carried
    ensures NotAbove(a.x, a.total, a, carried) && NotBelow(a.x, a.total, a, 0.0)
  {
    var c := a.total as real * DIGITS as real;
    assert c == (a.total * DIGITS) as real;
    var more, less := (a.total * DIGITS + carried - a.error) as real, (a.total * DIGITS - a.error) as real;
    assert a.x * c <= a.x * more;
    assert a.x * less <= a.x * c;
  }

  lemma MoreUnits(w: real, pool: nat, a: Standing, units: real, unit: real)
    requires NotBelow(w, pool, a, units) && unit >= 0.0
    ensures NotBelow(w, pool, a, units + unit)
  {
    var c := pool as real * DIGITS as real;
    assert (a.x + units) * c <= (a.x + (units + unit)) * c;
  }

  ghost function StandingAt(ss: seq<Pool>, d: Deposit): nat -> Standing {
    (k: nat) => if k < |ss| then Standing(Worth(ss[k], d), ss[k].totalLUSDDeposits, ss[k].lastLUSDLossError)
                else Standing(0.0, 0, 0)
  }

  ghost function UnitAt(ss: seq<Pool>, es: seq<Event>, d: Deposit): nat -> real {
    (k: nat) => if k < |es| && k + 1 < |ss| && Effective(ss[k], es[k]) && DepositValid(ss[k + 1], d)
                then UnitWorth(ss[k + 1], d) else 0.0
  }

  ghost function LossAt(ss: seq<Pool>, es: seq<Event>): nat -> nat {
    (k: nat) => if k < |es| && k < |ss| && Effective(ss[k], es[k])
                then LossOf(ss[k], es[k].debt, Next(ss[k], es[k])) else 0
  }

  /** The loss per unit staked, or all of it if the pool is emptied. */
  ghost function LossOf(s: Pool, debt: nat, t: Pool): nat {
    if t.currentEpoch == s.currentEpoch && Shrinks(s, debt, t) then
      var loss: nat :| ShrinksBy(s, debt, t, loss);
      loss
    else DIGITS
  }

  lemma OffsetStanding(s: Pool, debt: nat, t: Pool, d: Deposit)
    requires Valid(s) && OffsetDebt(s, debt) == Ok(t) && s.totalLUSDDeposits > 0 && debt > 0 && DepositValid(s, d)
    ensures DepositValid(t, d)
    ensures StandingStep(Standing(Worth(s, d), s.totalLUSDDeposits, s.lastLUSDLossError),
                         Standing(Worth(t, d), t.totalLUSDDeposits, t.lastLUSDLossError),
                         UnitWorth(t, d), LossOf(s, debt, t))
  {
    OffsetCases(s, debt);
    if t.currentEpoch == s.currentEpoch {
      ShrinkStanding(s, debt, t, LossOf(s, debt, t), d);
    } else {
      assert DepositValid(t, d) && Worth(t, d) == 0.0;
    }
  }

  lemma ShrinkStanding(s: Pool, debt: nat, t: Pool, loss: nat, d: Deposit)
    requires ShrinksBy(s, debt, t, loss) && t.totalLUSDDeposits == s.totalLUSDDeposits - debt && DepositValid(s, d)
    ensures DepositValid(t, d)
    ensures StandingStep(Standing(Worth(s, d), s.totalLUSDDeposits, s.lastLUSDLossError),
                         Standing(Worth(t, d), t.totalLUSDDeposits, t.lastLUSDLossError),
                         UnitWorth(t, d), loss)
  {
    DepositShrinks(s, debt, t, loss, d);
    if d.initialValue > 0 && d.snapshots.epoch == s.currentEpoch {
      DepositKeeps(s, debt, t, loss, d);
    }
  }

  lemma RunStandsAt(ss: seq<Pool>, es: seq<Event>, d: Deposit, k: nat)
    requires k < |es| && |ss| == |es| + 1 && HappensAt(ss, es, k) && es[k].Offset? && DepositValid(ss[k], d)
    ensures StandsAt(StandingAt(ss, d), UnitAt(ss, es, d), LossAt(ss, es), k)
  {
    if Effective(ss[k], es[k]) {
      OffsetStanding(ss[k], es[k].debt, ss[k + 1], d);
    }
  }

  /**
   * Over offsets only, a deposit stays the same part of the pool, however many offsets there are: above it
   * by at most its part of the largest error carried, and below by at most its part of the pending error and
   * a unit of the product for each offset.
   */
  lemma {:induction false} OffsetsFollowPool(ss: seq<Pool>, es: seq<Event>, j: nat, i: nat, who: nat, carried: nat)
    requires Untouched(ss, es, j, i, who)
    requires forall k :: j <= k < i ==> es[k].Offset?
    requires forall k :: j <= k <= i ==> ss[k].lastLUSDLossError <= carried
    ensures Valid(ss[i]) && |ss[i].deposits| == |ss[j].deposits| && ss[i].deposits[who] == ss[j].deposits[who]
    ensures var d := ss[j].deposits[who];
            var w, pool, a := Worth(ss[j], d), ss[j].totalLUSDDeposits, StandingAt(ss, d)(i);
            && a == Standing(Worth(ss[i], d), ss[i].totalLUSDDeposits, ss[i].lastLUSDLossError)
            && NotAbove(w, pool, a, carried) && NotBelow(w, pool, a, Sum(UnitAt(ss, es, d), j, i))
  {
    var d := ss[j].deposits[who];
    UntouchedStays(ss, es, j, i, who);
    forall k | j <= k < i
      ensures StandsAt(StandingAt(ss, d), UnitAt(ss, es, d), LossAt(ss, es), k)
    {
      UntouchedStays(ss, es, j, k, who);
      assert HappensAt(ss, es, k) && ss[k].deposits[who] == d;
      RunStandsAt(ss, es, d, k);
    }
    Stands(StandingAt(ss, d), UnitAt(ss, es, d), LossAt(ss, es), j, i, carried);
  }
}
