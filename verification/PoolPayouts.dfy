/**
 * What each depositor of the Stability Pool receives of the ETH that offsets bring
 * (packages/contracts/contracts/StabilityPool.sol, lines 532-600 and 645-690): its part, across scale changes.
 */
module PoolPayouts {
  import opened Arithmetic
  import opened Decimals
  import opened PoolGains
  import opened PoolRuns
  import opened PoolState
  import opened Wrappers

  predicate Owns(e: PoolGains.Event, who: nat) {
    e.ByDepositor? && !e.event.Offset? && e.event.who == who
  }

  /** Between the `j`-th and the `i`-th state, the depositor neither deposits nor withdraws. */
  ghost predicate Untouched(gs: seq<Books>, es: seq<PoolGains.Event>, j: nat, i: nat, who: nat) {
    && |gs| == |es| + 1 && j <= i <= |es| && BooksValid(gs[j]) && who < |gs[j].snapshots|
    && forall k :: j <= k < i ==> PoolGains.HappensAt(gs, es, k) && !Owns(es[k], who)
  }

  lemma EntryStays(g: Books, e: PoolGains.Event, who: nat)
    requires BooksValid(g) && PoolGains.CanHappen(g, e) && who < |g.snapshots| && !Owns(e, who)
    ensures var h := PoolGains.Next(g, e);
            && BooksValid(h) && |h.snapshots| == |g.snapshots|
            && h.pool.deposits[who] == g.pool.deposits[who] && h.snapshots[who] == g.snapshots[who]
  {
    NextBooksValid(g, e);
    if e.WithCollateral? && PoolGains.Outcome(g, e).Ok? {
      OffsetCases(g.pool, e.debt);
    }
  }

  lemma {:induction false} UntouchedStays(gs: seq<Books>, es: seq<PoolGains.Event>, j: nat, i: nat, who: nat)
    requires Untouched(gs, es, j, i, who)
    ensures BooksValid(gs[i]) && |gs[i].snapshots| == |gs[j].snapshots|
    ensures gs[i].pool.deposits[who] == gs[j].pool.deposits[who] && gs[i].snapshots[who] == gs[j].snapshots[who]
    decreases i
  {
    if i > j {
      UntouchedStays(gs, es, j, i - 1, who);
      assert PoolGains.HappensAt(gs, es, i - 1) && !Owns(es[i - 1], who);
      EntryStays(gs[i - 1], es[i - 1], who);
    }
  }

  // ---------------------------------------------------------------- one event

  /** An offset that succeeds and brings ETH to a deposit. */
  predicate Pays(g: Books, e: PoolGains.Event, d: Deposit) {
    && BooksValid(g) && DepositValid(g.pool, d) && Earns(g.pool, d)
    && e.WithCollateral? && e.debt > 0 && g.pool.totalLUSDDeposits > 0 && OffsetDebt(g.pool, e.debt).Ok?
  }

  /** What `x` is of `total`, of `amount`. */
  function PartOf(x: real, amount: real, total: nat): real
    requires total > 0
  {
    x * (amount / total as real)
  }

  /** The deposit's part of the collateral: what its exact worth is of the pool. */
  function Part(g: Books, e: PoolGains.Event, d: Deposit): real {
    if Pays(g, e, d) then PartOf(WorthOf(g.pool, d), e.coll as real, g.pool.totalLUSDDeposits) else 0.0
  }

  /** Its part of the error that the offset starts from, which it may receive in addition. */
  function More(g: Books, e: PoolGains.Event, d: Deposit): real {
    if Pays(g, e, d)
    then PartOf(WorthOf(g.pool, d), g.lastETHError as real / DIGITS as real, g.pool.totalLUSDDeposits) else 0.0
  }

  /** A 10^18-th of its worth, which it may receive less. */
  function LessBy(g: Books, e: PoolGains.Event, d: Deposit): real {
    if Pays(g, e, d) then WorthOf(g.pool, d) * (1.0 / DIGITS as real) else 0.0
  }

  /** `after` exceeds `before` by `part`, or up to `more` more or `less` less. */
  predicate Receives(before: real, after: real, part: real, more: real, less: real) {
    before + part - less <= after <= before + part + more
  }

  lemma EventPays(g: Books, e: PoolGains.Event, d: Deposit, snapshot: nat)
    requires BooksValid(g) && PoolGains.CanHappen(g, e) && Snapped(g, d, snapshot) && DepositValid(g.pool, d)
    ensures var h := PoolGains.Next(g, e);
            && Snapped(h, d, snapshot)
            && Receives(Pending(g, d, snapshot), Pending(h, d, snapshot), Part(g, e, d), More(g, e, d), LessBy(g, e, d))
  {
    if e.WithCollateral? && OffsetDebt(g.pool, e.debt).Ok? && g.pool.totalLUSDDeposits > 0 && e.debt > 0 {
      var gain := ComputeGain(e.coll, g.pool.totalLUSDDeposits, g.lastETHError);
      MulMonotone(0, gain.perUnitStaked, 0, g.pool.p);
      CollateralPays(g, e.coll, PoolGains.Next(g, e), gain, d, snapshot);
    } else {
      SumsStay(g, e);
    }
  }

  /** Nothing else changes the sums. */
  lemma SumsStay(g: Books, e: PoolGains.Event)
    requires BooksValid(g) && PoolGains.CanHappen(g, e)
    requires !(e.WithCollateral? && OffsetDebt(g.pool, e.debt).Ok? && g.pool.totalLUSDDeposits > 0 && e.debt > 0)
    ensures PoolGains.Next(g, e).sums == g.sums
  {
  }

  lemma CollateralPays(g: Books, coll: nat, h: Books, gain: Loss, d: Deposit, snapshot: nat)
    requires BooksValid(g) && Snapped(g, d, snapshot) && DepositValid(g.pool, d) && g.pool.totalLUSDDeposits > 0
    requires gain == ComputeGain(coll, g.pool.totalLUSDDeposits, g.lastETHError)
    requires gain.perUnitStaked * g.pool.p >= 0 && h.sums == AddToSum(g, gain.perUnitStaked)
    ensures Snapped(h, d, snapshot)
    ensures var x, total := WorthOf(g.pool, d), g.pool.totalLUSDDeposits;
            if Earns(g.pool, d) then
              Receives(Pending(g, d, snapshot), Pending(h, d, snapshot), PartOf(x, coll as real, total),
                       PartOf(x, g.lastETHError as real / DIGITS as real, total), x * (1.0 / DIGITS as real))
            else Pending(h, d, snapshot) == Pending(g, d, snapshot)
  {
    OffsetPending(g, h, gain.perUnitStaked, d, snapshot);
    GainBounds(coll, g.pool.totalLUSDDeposits, g.lastETHError);
    if Earns(g.pool, d) {
      PartPaid(WorthOf(g.pool, d), gain.perUnitStaked, g.pool.totalLUSDDeposits, coll, g.lastETHError, gain.error,
               Pending(g, d, snapshot), Pending(h, d, snapshot));
    }
  }

  lemma GainBounds(coll: nat, total: nat, lastError: nat)
    requires total > 0
    ensures var gain := ComputeGain(coll, total, lastError);
            gain.perUnitStaked * total == coll * DIGITS + lastError - gain.error && gain.error < total
  {
    DivBounds(coll * DIGITS + lastError, total);
    var n := coll * DIGITS + lastError;
    assert total * (n / total) == n / total * total;
  }

  lemma PartPaid(x: real, perUnit: nat, total: nat, coll: nat, e: nat, e': nat, before: real, after: real)
    requires x >= 0.0 && total > 0 && perUnit * total == coll * DIGITS + e - e' && e' < total
    requires GrowsBy(before, after, x, perUnit as real)
    ensures Receives(before, after, PartOf(x, coll as real, total), PartOf(x, e as real / DIGITS as real, total),
                     x * (1.0 / DIGITS as real))
  {
    RealOfProduct(perUnit, total);
    var d := DIGITS as real;
    assert perUnit as real * total as real == coll as real * d + e as real - e' as real;
    PaidBetween(x, perUnit as real, coll as real, e as real, e' as real, total as real, d, after - before);
  }

  lemma PaidBetween(x: real, u: real, c: real, e: real, e': real, n: real, d: real, y: real)
    requires x >= 0.0 && n > 0.0 && d > 0.0 && u * n == c * d + e - e' && 0.0 <= e && 0.0 <= e' <= n
    requires y == x * u / d
    ensures x * (c / n) - x * (1.0 / d) <= y <= x * (c / n) + x * (e / d / n)
  {
    Rate(u, c, e, e', n, d);
    TimesQuotient(x, u, d);
    assert 0.0 <= e / d / n && 0.0 <= e' / d / n;
    ThreeParts(x, u / d, c / n, e / d / n, e' / d / n, 1.0 / d);
  }

  lemma TimesQuotient(x: real, u: real, d: real)
    requires d > 0.0
    ensures x * u / d == x * (u / d)
  {
  }

  /** The gain for each unit, as a number: the exact one, more by the old error, and less by the new one. */
  lemma Rate(u: real, c: real, e: real, e': real, n: real, d: real)
    requires n > 0.0 && d > 0.0 && u * n == c * d + e - e' && 0.0 <= e' <= n
    ensures u / d == c / n + e / d / n - e' / d / n && e' / d / n <= 1.0 / d
  {
    var m := n * d;
    assert c / n * m == c * d && e / d / n * m == e && e' / d / n * m == e' && u / d * m == u * n;
    Equal(u / d, c / n + e / d / n - e' / d / n, m);
    assert 1.0 / d * m == n;
    AtMost(e' / d / n, 1.0 / d, m);
  }

  lemma Equal(a: real, b: real, m: real)
    requires m > 0.0 && a * m == b * m
    ensures a == b
  {
  }

  lemma AtMost(a: real, b: real, m: real)
    requires m > 0.0 && a * m <= b * m
    ensures a <= b
  {
  }

  lemma ThreeParts(x: real, u: real, c: real, more: real, r: real, less: real)
    requires x >= 0.0 && u == c + more - r && 0.0 <= r <= less && more >= 0.0
    ensures x * c - x * less <= x * u <= x * c + x * more
  {
    assert x * u == x * c + x * more - x * r;
    RealMulMonotone(x, x, r, less);
    RealMulMonotone(0.0, x, 0.0, more);
  }

  // ---------------------------------------------------------------- over a run

  predicate ReceivesAt(x: nat -> real, part: nat -> real, more: nat -> real, less: nat -> real, k: nat) {
    Receives(x(k), x(k + 1), part(k), more(k), less(k))
  }

  lemma {:induction false} ReceivesAll(x: nat -> real, part: nat -> real, more: nat -> real, less: nat -> real,
                                       j: nat, i: nat)
    requires j <= i && forall k :: j <= k < i ==> ReceivesAt(x, part, more, less, k)
    ensures Receives(x(j), x(i), Sum(part, j, i), Sum(more, j, i), Sum(less, j, i))
  {
    if i > j {
      ReceivesAll(x, part, more, less, j, i - 1);
      assert ReceivesAt(x, part, more, less, i - 1);
    }
  }

  ghost function PendingAt(gs: seq<Books>, d: Deposit, snapshot: nat): nat -> real {
    (k: nat) => if k < |gs| && Snapped(gs[k], d, snapshot) then Pending(gs[k], d, snapshot) else 0.0
  }

  ghost function PartAt(gs: seq<Books>, es: seq<PoolGains.Event>, d: Deposit): nat -> real {
    (k: nat) => if k < |es| && k < |gs| then Part(gs[k], es[k], d) else 0.0
  }

  ghost function MoreAt(gs: seq<Books>, es: seq<PoolGains.Event>, d: Deposit): nat -> real {
    (k: nat) => if k < |es| && k < |gs| then More(gs[k], es[k], d) else 0.0
  }

  ghost function LessAt(gs: seq<Books>, es: seq<PoolGains.Event>, d: Deposit): nat -> real {
    (k: nat) => if k < |es| && k < |gs| then LessBy(gs[k], es[k], d) else 0.0
  }

  lemma RunPaysAt(gs: seq<Books>, es: seq<PoolGains.Event>, d: Deposit, snapshot: nat, k: nat)
    requires k < |es| && |gs| == |es| + 1 && PoolGains.HappensAt(gs, es, k)
    requires Snapped(gs[k], d, snapshot) && DepositValid(gs[k].pool, d)
    ensures Snapped(gs[k + 1], d, snapshot)
    ensures ReceivesAt(PendingAt(gs, d, snapshot), PartAt(gs, es, d), MoreAt(gs, es, d), LessAt(gs, es, d), k)
  {
    EventPays(gs[k], es[k], d, snapshot);
  }

  /**
   * Over any part of a run in which its owner leaves it alone, a deposit's gain grows by its part of the
   * collateral of each offset, until a second scale change: by no more than its parts of the errors, and
   * by no less than a 10^18-th of its worth for each offset, a unit, and what a unit of the sum is worth.
   */
  lemma {:induction false} RunPays(gs: seq<Books>, es: seq<PoolGains.Event>, j: nat, i: nat, who: nat)
    requires Untouched(gs, es, j, i, who) && gs[j].pool.deposits[who].initialValue > 0
    ensures BooksValid(gs[i]) && |gs[i].snapshots| == |gs[j].snapshots|
    ensures gs[i].pool.deposits[who] == gs[j].pool.deposits[who] && gs[i].snapshots[who] == gs[j].snapshots[who]
    ensures var d, snapshot := gs[j].pool.deposits[who], gs[j].snapshots[who];
            && Snapped(gs[j], d, snapshot) && Snapped(gs[i], d, snapshot)
            && (var ideal := Pending(gs[j], d, snapshot) + Sum(PartAt(gs, es, d), j, i);
                && Gain(gs[i], d, snapshot) as real <= ideal + Sum(MoreAt(gs, es, d), j, i)
                && ideal - Sum(LessAt(gs, es, d), j, i)
                   < Gain(gs[i], d, snapshot) as real + 1.0
                     + d.initialValue as real / d.snapshots.p as real / DIGITS as real)
  {
    var d, snapshot := gs[j].pool.deposits[who], gs[j].snapshots[who];
    UntouchedStays(gs, es, j, i, who);
    assert Snapped(gs[j], d, snapshot) && Snapped(gs[i], d, snapshot);
    forall k | j <= k < i
      ensures ReceivesAt(PendingAt(gs, d, snapshot), PartAt(gs, es, d), MoreAt(gs, es, d), LessAt(gs, es, d), k)
    {
      UntouchedStays(gs, es, j, k, who);
      assert PoolGains.HappensAt(gs, es, k) && Snapped(gs[k], gs[k].pool.deposits[who], gs[k].snapshots[who]);
      assert DepositValid(gs[k].pool, gs[k].pool.deposits[who]);
      RunPaysAt(gs, es, d, snapshot, k);
    }
    ReceivesAll(PendingAt(gs, d, snapshot), PartAt(gs, es, d), MoreAt(gs, es, d), LessAt(gs, es, d), j, i);
    GainAtMostPending(gs[i], d, snapshot);
    PendingNearGain(gs[i], d, snapshot);
  }
}
