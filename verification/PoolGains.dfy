/**
 * The ETH that the Stability Pool's depositors gain from offsets (packages/contracts/contracts/StabilityPool.sol,
 * lines 532-600, 645-690 and 832-898), against the ETH that the pool has received and not paid out.
 */
module PoolGains {
  import opened Arithmetic
  import opened Decimals
  import opened PoolCover
  import opened PoolRuns
  import opened PoolState
  import opened Wrappers

  /** The accounting with the sums by epoch and scale, their rounding error, the ETH, and the snapshots of sums. */
  datatype Books = Books(
    pool: Pool,
    sums: map<(nat, nat), nat>,
    lastETHError: nat,
    eth: nat,
    snapshots: seq<nat>)

  function Opened(addresses: nat): Books {
    Books(Initial(addresses), map[], 0, 0, seq(addresses, _ => 0))
  }

  /** An entry of `epochToScaleToSum`; missing ones are zero. */
  function SumAt(g: Books, epoch: nat, scale: nat): nat {
    if (epoch, scale) in g.sums then g.sums[(epoch, scale)] else 0
  }

  /** The sum that the next offset adds to. */
  function CurrentSum(g: Books): nat {
    SumAt(g, g.pool.currentEpoch, g.pool.currentScale)
  }

  // ---------------------------------------------------------------- gains

  /** Whether the sum at a deposit's scale has not fallen behind its snapshot. */
  predicate Snapped(g: Books, d: Deposit, snapshot: nat) {
    d.initialValue > 0 ==> d.snapshots.p > 0 && snapshot <= SumAt(g, d.snapshots.epoch, d.snapshots.scale)
  }

  function Gain(g: Books, d: Deposit, snapshot: nat): nat
    requires Snapped(g, d, snapshot)
  {
    if d.initialValue == 0 then 0
    else
      var firstPortion := SumAt(g, d.snapshots.epoch, d.snapshots.scale) - snapshot;
      var secondPortion := SumAt(g, d.snapshots.epoch, d.snapshots.scale + 1) / SCALE_FACTOR;
      GainOf(d.initialValue, firstPortion, secondPortion, d.snapshots.p)
  }

  function GainOf(value: nat, first: nat, second: nat, p: nat): nat
    requires p > 0
  {
    DivGalois(value * (first + second), p, 0);
    value * (first + second) / p / DIGITS
  }

  // ---------------------------------------------------------------- the events

  /** The gain in the sum for each unit staked, and the error its rounding leaves. */
  function ComputeGain(coll: nat, total: nat, lastError: nat): Loss
    requires total > 0
  {
    var numerator := coll * DIGITS + lastError;
    DivBounds(numerator, total);
    DivGalois(numerator, total, 0);
    assert total * (numerator / total) == numerator / total * total;
    Loss(numerator / total, numerator - numerator / total * total)
  }

  function AddToSum(g: Books, perUnit: nat): map<(nat, nat), nat> {
    MulMonotone(0, perUnit, 0, g.pool.p);
    g.sums[(g.pool.currentEpoch, g.pool.currentScale) := CurrentSum(g) + perUnit * g.pool.p]
  }

  function OffsetBooks(g: Books, debt: nat, coll: nat): Result<Books> {
    CollectInto(g, debt, coll, OffsetDebt(g.pool, debt))
  }

  function CollectInto(g: Books, debt: nat, coll: nat, pool: Result<Pool>): Result<Books> {
    var total := g.pool.totalLUSDDeposits;
    match pool
    case Err(e) => Err(e)
    case Ok(t) =>
      if total == 0 || debt == 0 then Ok(g)
      else
        var gain := ComputeGain(coll, total, g.lastETHError);
        Ok(g.(pool := t, sums := AddToSum(g, gain.perUnitStaked), lastETHError := gain.error, eth := g.eth + coll))
  }

  predicate BooksValid(g: Books) {
    && Valid(g.pool) && |g.snapshots| == |g.pool.deposits|
    && (forall i :: 0 <= i < |g.snapshots| ==> Snapped(g, g.pool.deposits[i], g.snapshots[i]))
    && forall k :: k in g.sums ==>
         k.0 <= g.pool.currentEpoch && (k.0 == g.pool.currentEpoch ==> k.1 <= g.pool.currentScale)
  }

  /** A deposit or withdrawal pays out the gain, and takes new snapshots. */
  function UpdateBooks(g: Books, who: nat, pool: Result<Pool>): Result<Books>
    requires BooksValid(g) && who < |g.snapshots|
    requires pool.Ok? ==> |pool.value.deposits| == |g.snapshots|
  {
    match pool
    case Err(e) => Err(e)
    case Ok(t) =>
      var gain := Gain(g, g.pool.deposits[who], g.snapshots[who]);
      if gain > g.eth then Err(SubtractionOverflow)
      else Ok(g.(pool := t, eth := g.eth - gain,
                 snapshots := g.snapshots[who := if t.deposits[who].initialValue == 0 then 0 else CurrentSum(g)]))
  }

  /** An offset brings collateral. */
  datatype Event = WithCollateral(debt: nat, coll: nat) | ByDepositor(event: PoolState.Event)

  predicate CanHappen(g: Books, e: Event) {
    e.WithCollateral? || (!e.event.Offset? && e.event.who < |g.pool.deposits|)
  }

  function Outcome(g: Books, e: Event): Result<Books>
    requires BooksValid(g) && CanHappen(g, e)
  {
    match e
    case WithCollateral(debt, coll) => OffsetBooks(g, debt, coll)
    case ByDepositor(event) =>
      NextValid(g.pool, event);
      UpdateBooks(g, event.who, PoolState.Outcome(g.pool, event))
  }

  function Next(g: Books, e: Event): Books
    requires BooksValid(g) && CanHappen(g, e)
  {
    var r := Outcome(g, e);
    if r.Ok? then r.value else g
  }

  // ---------------------------------------------------------------- validity

  lemma OffsetBooksValid(g: Books, debt: nat, coll: nat)
    requires BooksValid(g) && OffsetBooks(g, debt, coll).Ok?
    ensures BooksValid(OffsetBooks(g, debt, coll).value)
  {
    var h := OffsetBooks(g, debt, coll).value;
    OffsetValid(g.pool, debt);
    OffsetCases(g.pool, debt);
    if g.pool.totalLUSDDeposits > 0 && debt > 0 {
      var gain := ComputeGain(coll, g.pool.totalLUSDDeposits, g.lastETHError);
      MulMonotone(0, gain.perUnitStaked, 0, g.pool.p);
      forall i | 0 <= i < |h.snapshots|
        ensures Snapped(h, h.pool.deposits[i], h.snapshots[i])
      {
        assert Snapped(g, g.pool.deposits[i], g.snapshots[i]);
      }
    }
  }

  lemma UpdateBooksValid(g: Books, event: PoolState.Event)
    requires BooksValid(g) && CanHappen(g, ByDepositor(event)) && Outcome(g, ByDepositor(event)).Ok?
    ensures BooksValid(Outcome(g, ByDepositor(event)).value)
  {
    var h, who := Outcome(g, ByDepositor(event)).value, event.who;
    NextValid(g.pool, event);
    forall i | 0 <= i < |h.snapshots|
      ensures Snapped(h, h.pool.deposits[i], h.snapshots[i])
    {
      assert Snapped(g, g.pool.deposits[i], g.snapshots[i]);
    }
  }

  lemma NextBooksValid(g: Books, e: Event)
    requires BooksValid(g) && CanHappen(g, e)
    ensures BooksValid(Next(g, e)) && |Next(g, e).snapshots| == |g.snapshots|
  {
    if Outcome(g, e).Ok? {
      match e
      case WithCollateral(debt, coll) => OffsetBooksValid(g, debt, coll);
      case ByDepositor(event) => UpdateBooksValid(g, event);
    }
  }

  /**
   * A deposit or withdrawal pays out the depositor's gain, after which there is none, and changes no other
   * gain; it fails exactly if it does without gains, or if the ETH falls short.
   */
  lemma PaysOut(g: Books, event: PoolState.Event)
    requires BooksValid(g) && CanHappen(g, ByDepositor(event))
    ensures Snapped(g, g.pool.deposits[event.who], g.snapshots[event.who])
    ensures var r, gain := Outcome(g, ByDepositor(event)), Gain(g, g.pool.deposits[event.who], g.snapshots[event.who]);
            && (r.Ok? <==> PoolState.Outcome(g.pool, event).Ok? && gain <= g.eth)
            && (r.Ok? ==>
                  var h := r.value;
                  && BooksValid(h) && h.eth + gain == g.eth && h.sums == g.sums && h.lastETHError == g.lastETHError
                  && Gain(h, h.pool.deposits[event.who], h.snapshots[event.who]) == 0
                  && forall i :: 0 <= i < |g.snapshots| && i != event.who ==>
                       h.pool.deposits[i] == g.pool.deposits[i] && h.snapshots[i] == g.snapshots[i])
  {
    var r := Outcome(g, ByDepositor(event));
    assert Snapped(g, g.pool.deposits[event.who], g.snapshots[event.who]);
    if r.Ok? {
      UpdateBooksValid(g, event);
      NextValid(g.pool, event);
      NoGainYet(r.value, event.who);
    }
  }

  lemma NoGainYet(h: Books, who: nat)
    requires BooksValid(h) && who < |h.snapshots|
    requires h.pool.deposits[who].initialValue > 0 ==>
      && h.pool.deposits[who].snapshots == Snapshots(h.pool.p, h.pool.currentScale, h.pool.currentEpoch)
      && h.snapshots[who] == CurrentSum(h)
    ensures Gain(h, h.pool.deposits[who], h.snapshots[who]) == 0
  {
    assert Snapped(h, h.pool.deposits[who], h.snapshots[who]);
    if h.pool.deposits[who].initialValue > 0 {
      NothingOf(h.pool.deposits[who].initialValue, h.pool.p);
    }
  }

  lemma NothingOf(value: nat, p: nat)
    requires p > 0
    ensures GainOf(value, 0, 0, p) == 0 && 0 / SCALE_FACTOR == 0
  {
    DivUnique(value * (0 + 0), p, 0);
  }

  // ---------------------------------------------------------------- exact gains

  /** A gain before its three divisions are rounded; `sum` is in exact parts of the first scale. */
  function Earned(value: nat, sum: real, p: nat): real
    requires p > 0
  {
    value as real * sum / p as real / DIGITS as real
  }

  function SumFrom(first: nat, next: nat): real {
    first as real + next as real / 1_000_000_000.0
  }

  /** What a deposit has gained exactly, in the two scales that count. */
  function Pending(g: Books, d: Deposit, snapshot: nat): real
    requires Snapped(g, d, snapshot)
  {
    if d.initialValue == 0 then 0.0
    else
      var first := SumAt(g, d.snapshots.epoch, d.snapshots.scale) - snapshot;
      Earned(d.initialValue, SumFrom(first, SumAt(g, d.snapshots.epoch, d.snapshots.scale + 1)), d.snapshots.p)
  }

  /** A gain never is more than the exact one. */
  lemma GainAtMostPending(g: Books, d: Deposit, snapshot: nat)
    requires Snapped(g, d, snapshot)
    ensures 0.0 <= Gain(g, d, snapshot) as real <= Pending(g, d, snapshot)
  {
    if d.initialValue > 0 {
      var first := SumAt(g, d.snapshots.epoch, d.snapshots.scale) - snapshot;
      GainBelow(d.initialValue, first, SumAt(g, d.snapshots.epoch, d.snapshots.scale + 1), d.snapshots.p);
    }
  }

  lemma GainBelow(v: nat, first: nat, next: nat, p: nat)
    requires p > 0
    ensures next / SCALE_FACTOR >= 0
    ensures GainOf(v, first, next / SCALE_FACTOR, p) as real <= Earned(v, SumFrom(first, next), p)
  {
    FloorBelow(next, SCALE_FACTOR);
    var second := next / SCALE_FACTOR;
    var n := v * (first + second);
    FloorBelow(n, p);
    FloorBelow(n / p, DIGITS);
    RealOfProduct(v, first + second);
    var x, y := (first + second) as real, SumFrom(first, next);
    RealMulMonotone(v as real, v as real, x, y);
    Shrink(n as real, v as real * y, p as real);
    Shrink((n / p) as real, v as real * y / p as real, DIGITS as real);
  }

  /** A gain falls short of the exact one by less than a unit, and what a unit of the second sum is worth. */
  lemma PendingNearGain(g: Books, d: Deposit, snapshot: nat)
    requires Snapped(g, d, snapshot) && d.initialValue > 0
    ensures Pending(g, d, snapshot)
          < Gain(g, d, snapshot) as real + 1.0 + d.initialValue as real / d.snapshots.p as real / DIGITS as real
  {
    var first := SumAt(g, d.snapshots.epoch, d.snapshots.scale) - snapshot;
    GainAbove(d.initialValue, first, SumAt(g, d.snapshots.epoch, d.snapshots.scale + 1), d.snapshots.p);
  }

  lemma GainAbove(v: nat, first: nat, next: nat, p: nat)
    requires p > 0 && v > 0
    ensures next / SCALE_FACTOR >= 0
    ensures Earned(v, SumFrom(first, next), p)
          < GainOf(v, first, next / SCALE_FACTOR, p) as real + 1.0 + v as real / p as real / DIGITS as real
  {
    FloorBelow(next, SCALE_FACTOR);
    FloorAbove(next, SCALE_FACTOR);
    var m := first + next / SCALE_FACTOR;
    TruncatedTwice(v * m, p);
    EarnedAtMost(v, SumFrom(first, next), m, p);
  }

  /** What a sum at most one above `m` earns, at most what `m` earns and the deposit once. */
  lemma EarnedAtMost(v: nat, sum: real, m: nat, p: nat)
    requires p > 0 && 0.0 <= sum <= m as real + 1.0
    ensures Earned(v, sum, p)
         <= (v * m) as real / p as real / DIGITS as real + v as real / p as real / DIGITS as real
  {
    var a, b, c := (v * m) as real, v as real * sum, v as real;
    RealOfProduct(v, m);
    RealMulMonotone(c, c, sum, m as real + 1.0);
    assert c * (m as real + 1.0) == a + c;
    Shrink(b, a + c, p as real);
    Shrink(b / p as real, (a + c) / p as real, DIGITS as real);
    SplitQuotient(a, c, p as real, DIGITS as real);
  }

  lemma TruncatedTwice(n: nat, p: nat)
    requires p > 0
    ensures n / p / DIGITS >= 0 && n as real / p as real / DIGITS as real < (n / p / DIGITS) as real + 1.0
  {
    DivGalois(n, p, 0);
    DivDiv(n, p, DIGITS);
    FloorAbove(n, p * DIGITS);
    RealOfProduct(p, DIGITS);
    assert n as real / p as real / DIGITS as real == n as real / (p as real * DIGITS as real);
  }

  lemma Shrink(a: real, b: real, d: real)
    requires d > 0.0 && a <= b
    ensures a / d <= b / d
  {
  }

  // ---------------------------------------------------------------- what an offset adds

  /** `after` exceeds `before` by at most `n` for each of `worth`. */
  predicate Grows(before: real, after: real, worth: real, n: real) {
    after <= before + worth * n / DIGITS as real
  }

  /** `after` exceeds `before` by `n` for each of `worth`. */
  predicate GrowsBy(before: real, after: real, worth: real, n: real) {
    after == before + worth * n / DIGITS as real
  }

  /** A deposit earns while it is of the current epoch, and until a second scale change. */
  predicate Earns(s: Pool, d: Deposit) {
    d.initialValue > 0 && d.snapshots.epoch == s.currentEpoch && s.currentScale <= d.snapshots.scale + 1
  }

  /** What a deposit that earns gains by `perUnit` for each unit: that much of its worth. */
  lemma OffsetPending(g: Books, h: Books, perUnit: nat, d: Deposit, snapshot: nat)
    requires BooksValid(g) && Snapped(g, d, snapshot) && DepositValid(g.pool, d)
    requires perUnit * g.pool.p >= 0 && h.sums == AddToSum(g, perUnit)
    ensures Snapped(h, d, snapshot)
    ensures if Earns(g.pool, d)
            then GrowsBy(Pending(g, d, snapshot), Pending(h, d, snapshot), WorthOf(g.pool, d), perUnit as real)
            else Pending(h, d, snapshot) == Pending(g, d, snapshot)
  {
    if Earns(g.pool, d) {
      var v, p, q, k := d.initialValue, g.pool.p, d.snapshots.p, g.pool.currentScale - d.snapshots.scale;
      var first := SumAt(g, d.snapshots.epoch, d.snapshots.scale) - snapshot;
      var next := SumAt(g, d.snapshots.epoch, d.snapshots.scale + 1);
      if k == 0 {
        EarnedNow(v, first, next, q, p, perUnit, WorthOf(g.pool, d), Pending(g, d, snapshot), Pending(h, d, snapshot));
      } else {
        EarnedNext(v, first, next, q, p, perUnit, WorthOf(g.pool, d), Pending(g, d, snapshot), Pending(h, d, snapshot));
      }
    }
  }

  lemma NoLoss(x: real, worth: real, n: real)
    requires worth >= 0.0 && n >= 0.0
    ensures Grows(x, x, worth, n)
  {
    RealMulMonotone(0.0, worth, 0.0, n);
  }

  /** At the deposit's own scale the sum grows by the product for each unit. */
  lemma EarnedNow(v: nat, first: nat, next: nat, q: nat, p: nat, perUnit: nat, w: real, before: real, after: real)
    requires q > 0 && perUnit * p >= 0 && w == Depreciated(v, p, q, 0)
    requires before == Earned(v, SumFrom(first, next), q) && after == Earned(v, SumFrom(first + perUnit * p, next), q)
    ensures GrowsBy(before, after, w, perUnit as real)
  {
    var m := (perUnit * p) as real;
    RealOfProduct(perUnit, p);
    DepreciatedOnce(v, p, q);
    RateAtScale(v as real, perUnit as real, p as real, q as real, 1.0, m, w);
    assert SumFrom(first + perUnit * p, next) == SumFrom(first, next) + m;
    EarnedMore(v, SumFrom(first, next), m, q, perUnit, w, before, after);
  }

  /** At the next scale, by a 10^9-th of that. */
  lemma EarnedNext(v: nat, first: nat, next: nat, q: nat, p: nat, perUnit: nat, w: real, before: real, after: real)
    requires q > 0 && perUnit * p >= 0 && w == Depreciated(v, p, q, 1)
    requires before == Earned(v, SumFrom(first, next), q) && after == Earned(v, SumFrom(first, next + perUnit * p), q)
    ensures GrowsBy(before, after, w, perUnit as real)
  {
    var m := (perUnit * p) as real / 1_000_000_000.0;
    RealOfProduct(perUnit, p);
    DepreciatedOnce(v, p, q);
    RateAtScale(v as real, perUnit as real, p as real, q as real, 1_000_000_000.0, m, w);
    assert SumFrom(first, next + perUnit * p) == SumFrom(first, next) + m;
    EarnedMore(v, SumFrom(first, next), m, q, perUnit, w, before, after);
  }

  lemma RateAtScale(v: real, n: real, p: real, q: real, f: real, m: real, w: real)
    requires q > 0.0 && f > 0.0 && m == n * p / f && w == v * p / q / f
    ensures v * m / q == w * n
  {
  }

  lemma EarnedMore(v: nat, sum: real, m: real, q: nat, perUnit: nat, w: real, before: real, after: real)
    requires q > 0 && v as real * m / q as real == w * perUnit as real
    requires before == Earned(v, sum, q) && after == Earned(v, sum + m, q)
    ensures GrowsBy(before, after, w, perUnit as real)
  {
    EarnedParts(v as real, sum, m, q as real, DIGITS as real, w * perUnit as real, before, after);
  }

  lemma DepreciatedOnce(v: nat, p: nat, q: nat)
    requires q > 0
    ensures Depreciated(v, p, q, 0) == v as real * p as real / q as real
    ensures Depreciated(v, p, q, 1) == v as real * p as real / q as real / 1_000_000_000.0
  {
    RealOfProduct(v, p);
    assert Depreciated(v, p, q, 1) == Depreciated(v, p, q, 0) / 1_000_000_000.0;
  }

  lemma EarnedParts(v: real, sum: real, m: real, q: real, d: real, wn: real, before: real, after: real)
    requires q > 0.0 && d > 0.0 && v * m / q == wn
    requires before == v * sum / q / d && after == v * (sum + m) / q / d
    ensures after == before + wn / d
  {
    assert v * (sum + m) == v * sum + v * m;
    SplitQuotient(v * sum, v * m, q, d);
  }

  lemma SplitQuotient(a: real, b: real, q: real, d: real)
    requires q > 0.0 && d > 0.0
    ensures (a + b) / q / d == a / q / d + b / q / d
  {
    assert (a + b) / q == a / q + b / q;
  }

  // ---------------------------------------------------------------- all depositors together

  /** The exact gain of the i-th depositor. */
  function Accrued(g: Books): nat -> real {
    (i: nat) => if i < |g.snapshots| == |g.pool.deposits| && Snapped(g, g.pool.deposits[i], g.snapshots[i])
                then Pending(g, g.pool.deposits[i], g.snapshots[i]) else 0.0
  }

  function Gains(g: Books): nat -> real {
    (i: nat) => if i < |g.snapshots| == |g.pool.deposits| && Snapped(g, g.pool.deposits[i], g.snapshots[i])
                then Gain(g, g.pool.deposits[i], g.snapshots[i]) as real else 0.0
  }

  /** The exact worth of the i-th deposit. */
  function WorthAt(s: Pool): nat -> real {
    (i: nat) => if i < |s.deposits| && DepositValid(s, s.deposits[i]) then WorthOf(s, s.deposits[i]) else 0.0
  }

  lemma {:induction false} TotalIsSum(ds: seq<Deposit>, worth: Deposit -> real, f: nat -> real)
    requires forall i :: 0 <= i < |ds| ==> f(i) == worth(ds[i])
    ensures Total(ds, worth) == Sum(f, 0, |ds|)
  {
    if ds != [] {
      TotalIsSum(ds[..|ds| - 1], worth, f);
    }
  }

  lemma {:induction false} SumMonotone(f: nat -> real, h: nat -> real, n: nat)
    requires forall i :: 0 <= i < n ==> f(i) <= h(i)
    ensures Sum(f, 0, n) <= Sum(h, 0, n)
  {
    if n > 0 {
      SumMonotone(f, h, n - 1);
    }
  }

  predicate GrowsAt(f: nat -> real, f': nat -> real, h: nat -> real, perUnit: real, i: nat) {
    Grows(f(i), f'(i), h(i), perUnit)
  }

  predicate AllGrow(f: nat -> real, f': nat -> real, h: nat -> real, perUnit: real, n: nat) {
    forall i {:trigger GrowsAt(f, f', h, perUnit, i)} :: 0 <= i < n ==> GrowsAt(f, f', h, perUnit, i)
  }

  lemma {:induction false} SumGrows(f: nat -> real, f': nat -> real, h: nat -> real, perUnit: real, n: nat)
    requires AllGrow(f, f', h, perUnit, n)
    ensures Sum(f', 0, n) <= Sum(f, 0, n) + Sum(h, 0, n) * perUnit / DIGITS as real
  {
    if n > 0 {
      SumGrows(f, f', h, perUnit, n - 1);
      assert GrowsAt(f, f', h, perUnit, n - 1);
      AddGrowth(Sum(h, 0, n - 1), h(n - 1), perUnit);
    }
  }

  lemma AddGrowth(a: real, b: real, n: real)
    ensures (a + b) * n / DIGITS as real == a * n / DIGITS as real + b * n / DIGITS as real
  {
    assert (a + b) * n == a * n + b * n;
  }

  lemma {:induction false} SumReplaced(f: nat -> real, f': nat -> real, who: nat, n: nat)
    requires who < n && forall i :: 0 <= i < n && i != who ==> f'(i) == f(i)
    ensures Sum(f', 0, n) == Sum(f, 0, n) - f(who) + f'(who)
  {
    if who < n - 1 {
      SumReplaced(f, f', who, n - 1);
    } else {
      SumSame(f, f', n - 1);
    }
  }

  lemma {:induction false} SumSame(f: nat -> real, f': nat -> real, n: nat)
    requires forall i :: 0 <= i < n ==> f'(i) == f(i)
    ensures Sum(f', 0, n) == Sum(f, 0, n)
  {
    if n > 0 {
      SumSame(f, f', n - 1);
    }
  }

  /** The ETH held backs all exact gains and the pending error, but for `slack` 10^18-ths of a unit. */
  predicate Backed(g: Books, slack: real) {
    && BooksValid(g)
    && Sum(Accrued(g), 0, |g.snapshots|) * DIGITS as real + g.lastETHError as real <= (g.eth * DIGITS) as real + slack
  }

  /** By how much an offset's gains may exceed its collateral, if the pool is covered but for `carried`. */
  function SlackOf(g: Books, e: Event, carried: nat): real
    requires BooksValid(g) && CanHappen(g, e)
  {
    if e.WithCollateral? && Outcome(g, e).Ok? && g.pool.totalLUSDDeposits > 0 && e.debt > 0
    then SlackBy(g, e.coll, carried) else 0.0
  }

  function SlackBy(g: Books, coll: nat, carried: nat): real
    requires g.pool.totalLUSDDeposits > 0
  {
    (carried - g.pool.lastLUSDLossError) as real
      * ComputeGain(coll, g.pool.totalLUSDDeposits, g.lastETHError).perUnitStaked as real / DIGITS as real
  }

  lemma AccruedGrows(g: Books, h: Books, perUnit: nat, n: real)
    requires BooksValid(g) && h.snapshots == g.snapshots && h.pool.deposits == g.pool.deposits
    requires perUnit * g.pool.p >= 0 && h.sums == AddToSum(g, perUnit) && n == perUnit as real
    ensures AllGrow(Accrued(g), Accrued(h), WorthAt(g.pool), n, |g.snapshots|)
  {
    var f, f', w := Accrued(g), Accrued(h), WorthAt(g.pool);
    forall i | 0 <= i < |g.snapshots|
      ensures GrowsAt(f, f', w, n, i)
    {
      AccruedGrowsAt(g, h, perUnit, i);
    }
  }

  lemma AccruedGrowsAt(g: Books, h: Books, perUnit: nat, i: nat)
    requires BooksValid(g) && h.snapshots == g.snapshots && h.pool.deposits == g.pool.deposits
    requires perUnit * g.pool.p >= 0 && h.sums == AddToSum(g, perUnit) && i < |g.snapshots|
    ensures GrowsAt(Accrued(g), Accrued(h), WorthAt(g.pool), perUnit as real, i)
  {
    var d := g.pool.deposits[i];
    assert Snapped(g, d, g.snapshots[i]) && DepositValid(g.pool, d);
    OffsetPending(g, h, perUnit, d, g.snapshots[i]);
    AccruedIs(g, i);
    AccruedIs(h, i);
    WorthIs(g.pool, i);
    if !Earns(g.pool, d) {
      NoLoss(Pending(g, d, g.snapshots[i]), WorthOf(g.pool, d), perUnit as real);
    }
  }

  lemma WorthIs(s: Pool, i: nat)
    requires i < |s.deposits| && DepositValid(s, s.deposits[i])
    ensures WorthAt(s)(i) == WorthOf(s, s.deposits[i])
  {
  }

  lemma AccruedIs(g: Books, i: nat)
    requires i < |g.snapshots| == |g.pool.deposits| && Snapped(g, g.pool.deposits[i], g.snapshots[i])
    ensures Accrued(g)(i) == Pending(g, g.pool.deposits[i], g.snapshots[i])
  {
  }

  lemma OffsetBacked(g: Books, debt: nat, coll: nat, t: Pool, h: Books, carried: nat, slack: real)
    requires Backed(g, slack) && Covered(g.pool, carried) && CollectInto(g, debt, coll, Ok(t)) == Ok(h)
    requires BooksValid(h) && t.deposits == g.pool.deposits && g.pool.totalLUSDDeposits > 0 && debt > 0
    ensures Backed(h, slack + SlackBy(g, coll, carried))
  {
    var gain := ComputeGain(coll, g.pool.totalLUSDDeposits, g.lastETHError);
    MulMonotone(0, gain.perUnitStaked, 0, g.pool.p);
    AccruedGrows(g, h, gain.perUnitStaked, gain.perUnitStaked as real);
    GrowthBacked(g, h, gain, coll, carried, slack, SlackBy(g, coll, carried));
  }

  lemma GrowthBacked(g: Books, h: Books, gain: Loss, coll: nat, carried: nat, slack: real, more: real)
    requires Backed(g, slack) && Covered(g.pool, carried) && BooksValid(h)
    requires h.snapshots == g.snapshots && h.eth == g.eth + coll && h.lastETHError == gain.error
    requires AllGrow(Accrued(g), Accrued(h), WorthAt(g.pool), gain.perUnitStaked as real, |g.snapshots|)
    requires gain.perUnitStaked * g.pool.totalLUSDDeposits == coll * DIGITS + g.lastETHError - gain.error
    requires more == (carried - g.pool.lastLUSDLossError) as real * gain.perUnitStaked as real / DIGITS as real
    ensures Backed(h, slack + more)
  {
    WorthCovered(g.pool, carried);
    SumBacked(Accrued(g), Accrued(h), WorthAt(g.pool), |g.snapshots|, gain.perUnitStaked, g.pool.totalLUSDDeposits,
              coll, g.lastETHError, gain.error, g.eth, carried - g.pool.lastLUSDLossError, slack, more);
  }

  lemma WorthCovered(s: Pool, carried: nat)
    requires Covered(s, carried)
    ensures Sum(WorthAt(s), 0, |s.deposits|) * DIGITS as real
         <= (s.totalLUSDDeposits * DIGITS + carried - s.lastLUSDLossError) as real
  {
    TotalIsSum(s.deposits, Worths(s), WorthAt(s));
  }

  lemma SumBacked(f: nat -> real, f': nat -> real, h: nat -> real, k: nat, perUnit: nat, total: nat, coll: nat,
                  e: nat, e': nat, eth: nat, rest: int, slack: real, more: real)
    requires more == rest as real * perUnit as real / DIGITS as real
    requires AllGrow(f, f', h, perUnit as real, k) && perUnit * total == coll * DIGITS + e - e'
    requires Sum(h, 0, k) * DIGITS as real <= (total * DIGITS + rest) as real
    requires Sum(f, 0, k) * DIGITS as real + e as real <= (eth * DIGITS) as real + slack
    ensures Sum(f', 0, k) * DIGITS as real + e' as real <= ((eth + coll) * DIGITS) as real + (slack + more)
  {
    SumGrows(f, f', h, perUnit as real, k);
    BackedBy(Sum(f, 0, k), Sum(f', 0, k), Sum(h, 0, k), perUnit, total, coll, e, e', eth, rest, slack);
  }

  lemma BackedBy(a: real, a': real, w: real, perUnit: nat, total: nat, coll: nat, e: nat, e': nat, eth: nat,
                 rest: int, slack: real)
    requires a' <= a + w * perUnit as real / DIGITS as real && perUnit * total == coll * DIGITS + e - e'
    requires w * DIGITS as real <= (total * DIGITS + rest) as real
    requires a * DIGITS as real + e as real <= (eth * DIGITS) as real + slack
    ensures a' * DIGITS as real + e' as real
         <= ((eth + coll) * DIGITS) as real + (slack + rest as real * perUnit as real / DIGITS as real)
  {
    var d, n, r := DIGITS as real, perUnit as real, rest as real;
    RealOfProduct(perUnit, total);
    var wn := w * n;
    assert wn / d * d == wn;
    TimesUnits(w, n, total as real, r, d);
    assert a' * d <= a * d + wn;
  }

  lemma TimesUnits(w: real, n: real, total: real, r: real, d: real)
    requires n >= 0.0 && d > 0.0 && w * d <= total * d + r
    ensures w * n <= n * total + r * n / d
  {
    var x := total + r / d;
    assert w <= x by { assert x * d == total * d + r; }
    assert w * n <= x * n;
    assert x * n == n * total + r * n / d;
  }

  lemma UpdateBacked(g: Books, event: PoolState.Event, slack: real)
    requires Backed(g, slack) && CanHappen(g, ByDepositor(event)) && Outcome(g, ByDepositor(event)).Ok?
    ensures Backed(Outcome(g, ByDepositor(event)).value, slack)
  {
    var h, who := Outcome(g, ByDepositor(event)).value, event.who;
    UpdateBooksValid(g, event);
    NextValid(g.pool, event);
    var d, snapshot := g.pool.deposits[who], g.snapshots[who];
    assert Snapped(g, d, snapshot);
    GainAtMostPending(g, d, snapshot);
    NothingPending(h, who);
    forall i | 0 <= i < |g.snapshots| && i != who
      ensures Accrued(h)(i) == Accrued(g)(i)
    {
    }
    SumReplaced(Accrued(g), Accrued(h), who, |g.snapshots|);
  }

  /** A new deposit has gained nothing: no sum has been kept for a later scale. */
  lemma NothingPending(h: Books, who: nat)
    requires BooksValid(h) && who < |h.snapshots|
    requires h.pool.deposits[who].initialValue > 0 ==>
      && h.pool.deposits[who].snapshots == Snapshots(h.pool.p, h.pool.currentScale, h.pool.currentEpoch)
      && h.snapshots[who] == CurrentSum(h)
    ensures Accrued(h)(who) == 0.0
  {
    assert Snapped(h, h.pool.deposits[who], h.snapshots[who]);
  }

  lemma NextBacked(g: Books, e: Event, carried: nat, slack: real)
    requires Backed(g, slack) && Covered(g.pool, carried) && CanHappen(g, e)
    ensures Backed(Next(g, e), slack + SlackOf(g, e, carried))
  {
    if Outcome(g, e).Ok? {
      match e
      case WithCollateral(debt, coll) =>
        OffsetBooksValid(g, debt, coll);
        OffsetCases(g.pool, debt);
        if g.pool.totalLUSDDeposits > 0 && debt > 0 {
          OffsetBacked(g, debt, coll, OffsetDebt(g.pool, debt).value, Next(g, e), carried, slack);
        }
      case ByDepositor(event) => UpdateBacked(g, event, slack);
    }
  }

  // ---------------------------------------------------------------- runs

  predicate HappensAt(gs: seq<Books>, es: seq<Event>, i: nat)
    requires i < |es| && |gs| == |es| + 1
  {
    BooksValid(gs[i]) && CanHappen(gs[i], es[i]) && gs[i + 1] == Next(gs[i], es[i])
  }

  ghost predicate IsRun(gs: seq<Books>, es: seq<Event>) {
    && |gs| == |es| + 1 && gs[0] == Opened(|gs[0].snapshots|)
    && forall i :: 0 <= i < |es| ==> HappensAt(gs, es, i)
  }

  /** The largest error that an offset has started from, in the first `i` events. */
  function Carried(gs: seq<Books>, es: seq<Event>, i: nat): nat
    requires i <= |es| && |gs| == |es| + 1
  {
    if i == 0 then 0
    else
      var before := Carried(gs, es, i - 1);
      if es[i - 1].WithCollateral? then Larger(before, gs[i - 1].pool.lastLUSDLossError) else before
  }

  function Slack(gs: seq<Books>, es: seq<Event>, i: nat): real
    requires i <= |es| && |gs| == |es| + 1
  {
    if i == 0 then 0.0
    else Slack(gs, es, i - 1)
         + if BooksValid(gs[i - 1]) && CanHappen(gs[i - 1], es[i - 1])
           then SlackOf(gs[i - 1], es[i - 1], Carried(gs, es, i)) else 0.0
  }

  lemma {:induction false} OpenedBacked(n: nat)
    ensures Covered(Opened(n).pool, 0) && Backed(Opened(n), 0.0)
  {
    InitialCovered(n);
    SumZero(Accrued(Opened(n)), n);
  }

  lemma {:induction false} SumZero(f: nat -> real, n: nat)
    requires forall i :: 0 <= i < n ==> f(i) == 0.0
    ensures Sum(f, 0, n) == 0.0
  {
    if n > 0 {
      SumZero(f, n - 1);
    }
  }

  /** The event for the accounting alone; it does not happen there either if the ETH falls short. */
  lemma PoolStep(g: Books, e: Event)
    requires BooksValid(g) && CanHappen(g, e)
    ensures Next(g, e).pool == g.pool
         || Next(g, e).pool == PoolState.Next(g.pool, if e.WithCollateral? then Offset(e.debt) else e.event)
  {
  }

  lemma PoolCovered(g: Books, e: Event, carried: nat)
    requires BooksValid(g) && CanHappen(g, e) && Covered(g.pool, carried)
    requires e.WithCollateral? ==> g.pool.lastLUSDLossError <= carried
    ensures Covered(Next(g, e).pool, carried)
  {
    PoolStep(g, e);
    NextCovered(g.pool, if e.WithCollateral? then Offset(e.debt) else e.event, carried);
  }

  lemma {:induction false} RunBacked(gs: seq<Books>, es: seq<Event>, i: nat)
    requires IsRun(gs, es) && i <= |es|
    ensures Covered(gs[i].pool, Carried(gs, es, i)) && Backed(gs[i], Slack(gs, es, i))
  {
    if i == 0 {
      OpenedBacked(|gs[0].snapshots|);
    } else {
      RunBacked(gs, es, i - 1);
      assert HappensAt(gs, es, i - 1);
      var g, e, carried := gs[i - 1], es[i - 1], Carried(gs, es, i);
      CoveredMore(g.pool, Carried(gs, es, i - 1), carried);
      PoolCovered(g, e, carried);
      NextBacked(g, e, carried, Slack(gs, es, i - 1));
    }
  }

  lemma GainsAtMostAccrued(g: Books)
    requires BooksValid(g)
    ensures Sum(Gains(g), 0, |g.snapshots|) <= Sum(Accrued(g), 0, |g.snapshots|)
  {
    forall i | 0 <= i < |g.snapshots|
      ensures Gains(g)(i) <= Accrued(g)(i)
    {
      assert Snapped(g, g.pool.deposits[i], g.snapshots[i]);
      GainAtMostPending(g, g.pool.deposits[i], g.snapshots[i]);
    }
    SumMonotone(Gains(g), Accrued(g), |g.snapshots|);
  }

  lemma BackedGains(g: Books, slack: real)
    requires Backed(g, slack)
    ensures Sum(Gains(g), 0, |g.snapshots|) * DIGITS as real + g.lastETHError as real
         <= (g.eth * DIGITS) as real + slack
  {
    GainsAtMostAccrued(g);
  }

  /**
   * In every state of a run, all gains together exceed the ETH held by at most what the errors that offsets
   * have started from allow, less the pending error.
   */
  lemma {:induction false} RunGainsNearlyBacked(gs: seq<Books>, es: seq<Event>, i: nat)
    requires IsRun(gs, es) && i <= |es|
    ensures Sum(Gains(gs[i]), 0, |gs[i].snapshots|) * DIGITS as real + gs[i].lastETHError as real
         <= (gs[i].eth * DIGITS) as real + Slack(gs, es, i)
  {
    RunBacked(gs, es, i);
    BackedGains(gs[i], Slack(gs, es, i));
  }

  /** The i-th event leaves no smaller loss error pending, or empties the pool. */
  predicate ErrorKept(gs: seq<Books>, i: nat)
    requires i + 1 < |gs|
  {
    || gs[i].pool.lastLUSDLossError <= gs[i + 1].pool.lastLUSDLossError
    || gs[i].pool.currentEpoch != gs[i + 1].pool.currentEpoch
  }

  lemma NextFullyBacked(g: Books, e: Event)
    requires FullyCovered(g.pool) && Backed(g, 0.0) && CanHappen(g, e)
    ensures Backed(Next(g, e), 0.0)
    ensures var s, t := g.pool, Next(g, e).pool;
            s.lastLUSDLossError <= t.lastLUSDLossError || s.currentEpoch != t.currentEpoch ==> FullyCovered(t)
  {
    NextBacked(g, e, g.pool.lastLUSDLossError, 0.0);
    PoolStep(g, e);
    var s, t := g.pool, Next(g, e).pool;
    if t != s && (s.lastLUSDLossError <= t.lastLUSDLossError || s.currentEpoch != t.currentEpoch) {
      NextKeepsCover(s, if e.WithCollateral? then Offset(e.debt) else e.event);
    }
  }

  lemma {:induction false} RunFullyBacked(gs: seq<Books>, es: seq<Event>, i: nat)
    requires IsRun(gs, es) && i <= |es| && forall k :: 0 <= k < i ==> ErrorKept(gs, k)
    ensures FullyCovered(gs[i].pool) && Backed(gs[i], 0.0)
  {
    if i == 0 {
      OpenedBacked(|gs[0].snapshots|);
    } else {
      RunFullyBacked(gs, es, i - 1);
      assert HappensAt(gs, es, i - 1) && ErrorKept(gs, i - 1);
      NextFullyBacked(gs[i - 1], es[i - 1]);
    }
  }

  /**
   * As long as no offset has left a smaller loss error than it has started from, the ETH held covers all
   * gains, and no payment of a gain fails for want of ETH.
   */
  lemma {:induction false} RunGainsBacked(gs: seq<Books>, es: seq<Event>, i: nat)
    requires IsRun(gs, es) && i <= |es| && forall k :: 0 <= k < i ==> ErrorKept(gs, k)
    ensures Sum(Gains(gs[i]), 0, |gs[i].snapshots|) <= gs[i].eth as real
    ensures BooksValid(gs[i]) && forall who :: 0 <= who < |gs[i].snapshots| ==> Gains(gs[i])(who) <= gs[i].eth as real
  {
    RunFullyBacked(gs, es, i);
    BackedGains(gs[i], 0.0);
    forall who | 0 <= who < |gs[i].snapshots|
      ensures Gains(gs[i])(who) <= gs[i].eth as real
    {
      OneOfSum(Gains(gs[i]), who, |gs[i].snapshots|);
    }
  }

  lemma {:induction false} OneOfSum(f: nat -> real, who: nat, n: nat)
    requires who < n && forall i :: 0 <= i < n ==> f(i) >= 0.0
    ensures f(who) <= Sum(f, 0, n) && Sum(f, 0, n) >= 0.0
  {
    if n > 1 && who < n - 1 {
      OneOfSum(f, who, n - 1);
    } else {
      SumNonNegative(f, n - 1);
    }
  }

  lemma {:induction false} SumNonNegative(f: nat -> real, n: nat)
    requires forall i :: 0 <= i < n ==> f(i) >= 0.0
    ensures Sum(f, 0, n) >= 0.0
  {
    if n > 0 {
      SumNonNegative(f, n - 1);
    }
  }

  // ---------------------------------------------------------------- an excess

  /** The pool after a deposit, after two offsets without collateral, and after one that empties it. */
  function FundedBooks(m: nat): Books {
    Books(Funded(m), map[], 0, 0, [0])
  }

  function TwiceBooks(m: nat): Books
    requires m > 0
  {
    Books(Twice(m), map[(0, 0) := 0], 0, 0, [0])
  }

  function EmptiedBooks(m: nat): Books
    requires m > 0
  {
    Books(Twice(m).(p := DIGITS, currentEpoch := 1, totalLUSDDeposits := 0, lastLUSDLossError := 0),
          map[(0, 0) := DIGITS * Twice(m).p], 0, Twice(m).totalLUSDDeposits, [0])
  }

  lemma FundedBooksByDeposit(m: nat)
    requires m > 0
    ensures BooksValid(Opened(1)) && Next(Opened(1), ByDepositor(ToPool(0, 2 * m * DIGITS))) == FundedBooks(m)
  {
    FundedByDeposit(m);
    assert Opened(1).pool.deposits == [NO_DEPOSIT] && Opened(1).snapshots == [0];
    assert [0][0 := 0] == [0];
  }

  lemma TwoOffsets(m: nat)
    requires m > 0
    ensures OffsetBooks(FundedBooks(m), FirstDebt(m), 0).Ok?
    ensures OffsetBooks(OffsetBooks(FundedBooks(m), FirstDebt(m), 0).value, SecondDebt(m), 0) == Ok(TwiceBooks(m))
  {
    FirstOffset(m);
    SecondOffset(m);
    NoGain(Funded(m).totalLUSDDeposits);
    NoGain(Once(m).totalLUSDDeposits);
    var g := OffsetBooks(FundedBooks(m), FirstDebt(m), 0).value;
    assert g == Books(Once(m), map[(0, 0) := 0], 0, 0, [0]);
    assert AddToSum(g, 0) == map[(0, 0) := 0];
  }

  lemma NoGain(total: nat)
    requires total > 0
    ensures ComputeGain(0, total, 0) == Loss(0, 0)
  {
    DivUnique(0, total, 0);
  }

  lemma Emptied(m: nat)
    requires m > 0
    ensures OffsetBooks(TwiceBooks(m), Twice(m).totalLUSDDeposits, Twice(m).totalLUSDDeposits) == Ok(EmptiedBooks(m))
  {
    var total := Twice(m).totalLUSDDeposits;
    DivUnique(total * DIGITS, total, DIGITS);
    assert ComputeGain(total, total, 0) == Loss(DIGITS, 0);
    assert AddToSum(TwiceBooks(m), DIGITS) == map[(0, 0) := DIGITS * Twice(m).p];
  }

  lemma EmptiedGain(m: nat)
    requires m > 0
    ensures Snapped(EmptiedBooks(m), EmptiedBooks(m).pool.deposits[0], 0)
    ensures Gain(EmptiedBooks(m), EmptiedBooks(m).pool.deposits[0], 0) == EmptiedBooks(m).eth + m - 1
  {
    var p, c := Twice(m).p, 2 * m * 449_999_999_999_999_999;
    assert 2 * m * DIGITS * (DIGITS * p + 0) == DIGITS * (c * DIGITS);
    DivCancel(c * DIGITS, DIGITS);
    DivCancel(c, DIGITS);
  }

  /** The excess is passed on to the gains: for every `m`, the ETH can fall short of a gain by `m - 1` units. */
  lemma GainsExceed(m: nat)
    requires m > 0
    ensures BooksValid(Opened(1)) && Next(Opened(1), ByDepositor(ToPool(0, 2 * m * DIGITS))) == FundedBooks(m)
    ensures OffsetBooks(FundedBooks(m), FirstDebt(m), 0).Ok?
    ensures OffsetBooks(OffsetBooks(FundedBooks(m), FirstDebt(m), 0).value, SecondDebt(m), 0) == Ok(TwiceBooks(m))
    ensures OffsetBooks(TwiceBooks(m), Twice(m).totalLUSDDeposits, Twice(m).totalLUSDDeposits) == Ok(EmptiedBooks(m))
    ensures Snapped(EmptiedBooks(m), EmptiedBooks(m).pool.deposits[0], 0)
    ensures Gain(EmptiedBooks(m), EmptiedBooks(m).pool.deposits[0], 0) == EmptiedBooks(m).eth + m - 1
  {
    FundedBooksByDeposit(m);
    TwoOffsets(m);
    Emptied(m);
    EmptiedGain(m);
  }
}
