/**
 * The redemption loop of the macroeconomic model (packages/contracts/macroModel/macro_model.py,
 * lines 318-334), over exact real numbers.
 */
module Redemption {
  import opened Wrappers

  /** The columns of the table that the loop reads or writes. */
  datatype Row = Row(supply: real, etherQuantity: real, crCurrent: real)

  ghost predicate SortedByCR(rows: seq<Row>) {
    forall i, j :: 0 <= i <= j < |rows| ==> rows[i].crCurrent <= rows[j].crCurrent
  }

  function TotalSupply(rows: seq<Row>): real {
    if rows == [] then 0.0 else TotalSupply(rows[..|rows| - 1]) + rows[|rows| - 1].supply
  }

  function Ratio(price: real, etherQuantity: real, supply: real): real
    requires supply != 0.0
  {
    price * etherQuantity / supply
  }

  /** The collateral ratio a row really has at `price`, as opposed to the recorded one. */
  function TrueRatio(row: Row, price: real): real
    requires row.supply > 0.0
  {
    Ratio(price, row.etherQuantity, row.supply)
  }

  function EtherAfter(row: Row, residual: real, price: real): real
    requires price != 0.0
  {
    row.etherQuantity - residual / price
  }

  /** The residual trove after `residual` was redeemed from it. */
  function Redeemed(row: Row, residual: real, price: real): Row
    requires price != 0.0 && row.supply != residual
  {
    var supply, ether := row.supply - residual, EtherAfter(row, residual, price);
    Row(supply, ether, Ratio(price, ether, supply))
  }

  /** No running total up to the one before row `k` is above `pool`. */
  ghost predicate NoneAbove(rows: seq<Row>, pool: real, k: nat)
    requires k <= |rows|
  {
    forall i :: 1 <= i <= k ==> TotalSupply(rows[..i]) <= pool
  }

  /** `k` rows are fully redeemed: the first running total above `pool` is the one after row `k`. */
  ghost predicate RedeemsFully(rows: seq<Row>, pool: real, k: nat) {
    k < |rows| && TotalSupply(rows[..k + 1]) > pool && NoneAbove(rows, pool, k)
  }

  /** What a run that dropped `k` rows leaves. */
  function Remaining(sorted: seq<Row>, pool: real, price: real, k: nat): seq<Row>
    requires price != 0.0 && k < |sorted| && TotalSupply(sorted[..k + 1]) > pool
  {
    TotalSupplyStep(sorted, k);
    [Redeemed(sorted[k], pool - TotalSupply(sorted[..k]), price)] + sorted[k + 1..]
  }

  /**
   * The loop on the table as `sort_values` left it, which may order equal ratios either way. It succeeds
   * exactly if some number of rows is fully redeemed, and then drops that number; `dropped` collects,
   * for the specification, the rows the loop drops.
   */
  method Redeem(sorted: seq<Row>, pool: real, price: real)
      returns (r: Result<(seq<Row>, nat)>, ghost dropped: seq<Row>)
    requires price != 0.0
    ensures r.Ok? ==> var (troves, nRedempt) := r.value;
              && RedeemsFully(sorted, pool, nRedempt) && dropped == sorted[..nRedempt]
              && troves == Remaining(sorted, pool, price, nRedempt)
    ensures r.Err? ==> r.error == IndexError
    ensures forall k :: RedeemsFully(sorted, pool, k) ==> r.Ok? && r.value.1 == k
  {
    var troves := sorted;
    dropped := [];
    if troves == [] {
      return Err(IndexError), dropped;
    }
    var quantityWorkingTrove := troves[0].supply;
    var redempted := quantityWorkingTrove;
    var nRedempt := 0;
    Start(sorted, pool);
    while redempted <= pool
      invariant Working(sorted, pool, nRedempt, dropped, troves, redempted)
      invariant quantityWorkingTrove == troves[0].supply
      decreases |troves|
    {
      DropOne(sorted, pool, nRedempt, dropped, troves, redempted);
      dropped := dropped + [troves[0]];
      troves := troves[1..];
      if troves == [] {
        return Err(IndexError), dropped;
      }
      quantityWorkingTrove := troves[0].supply;
      redempted := redempted + quantityWorkingTrove;
      nRedempt := nRedempt + 1;
    }
    OnlyCount(sorted, pool, nRedempt);
    TotalSupplyStep(sorted, nRedempt);
    redempted := redempted - quantityWorkingTrove;
    var residual := pool - redempted;
    troves := WriteResidual(troves, residual, price);
    r := Ok((troves, nRedempt));
  }

  /** The loop's state: `n` rows dropped, with the next one counted in `redempted` already. */
  ghost predicate Working(sorted: seq<Row>, pool: real, n: nat, dropped: seq<Row>, troves: seq<Row>, redempted: real) {
    && n < |sorted| && dropped == sorted[..n] && troves == sorted[n..]
    && redempted == TotalSupply(sorted[..n + 1]) && NoneAbove(sorted, pool, n)
  }

  lemma Start(sorted: seq<Row>, pool: real)
    requires sorted != []
    ensures Working(sorted, pool, 0, [], sorted, sorted[0].supply)
  {
    assert sorted[..1] == [sorted[0]];
  }

  lemma DropOne(sorted: seq<Row>, pool: real, n: nat, dropped: seq<Row>, troves: seq<Row>, redempted: real)
    requires Working(sorted, pool, n, dropped, troves, redempted) && redempted <= pool
    ensures troves != [] && (troves[1..] == [] ==> !exists k :: RedeemsFully(sorted, pool, k))
    ensures troves[1..] != [] ==>
      Working(sorted, pool, n + 1, dropped + [troves[0]], troves[1..], redempted + troves[1..][0].supply)
  {
    assert NoneAbove(sorted, pool, n + 1);
    if troves[1..] != [] {
      TotalSupplyStep(sorted, n + 1);
    }
  }

  /** The assignments to the first row's cells after the loop. */
  method WriteResidual(troves: seq<Row>, residual: real, price: real) returns (written: seq<Row>)
    requires price != 0.0 && troves != [] && troves[0].supply != residual
    ensures written == [Redeemed(troves[0], residual, price)] + troves[1..]
  {
    var row := troves[0];
    row := row.(supply := row.supply - residual);
    row := row.(etherQuantity := EtherAfter(row, residual, price));
    row := row.(crCurrent := Ratio(price, row.etherQuantity, row.supply));
    written := [row] + troves[1..];
  }

  lemma {:induction false} TotalSupplyStep(rows: seq<Row>, k: nat)
    requires k < |rows|
    ensures TotalSupply(rows[..k + 1]) == TotalSupply(rows[..k]) + rows[k].supply
  {
    assert rows[..k + 1][..k] == rows[..k];
  }

  /** The number of dropped rows is determined by the table and the pool. */
  lemma {:induction false} OnlyCount(rows: seq<Row>, pool: real, k: nat)
    requires k < |rows| && NoneAbove(rows, pool, k) && TotalSupply(rows[..k + 1]) > pool
    ensures RedeemsFully(rows, pool, k) && forall l: nat :: RedeemsFully(rows, pool, l) ==> l == k
  {
    forall l: nat | RedeemsFully(rows, pool, l)
      ensures l == k
    {
      if l < k {
        assert false;
      }
    }
  }

  lemma {:induction false} TotalSupplyConcat(a: seq<Row>, b: seq<Row>)
    ensures TotalSupply(a + b) == TotalSupply(a) + TotalSupply(b)
  {
    if b == [] {
      assert a + b == a;
    } else {
      assert (a + b)[..|a + b| - 1] == a + b[..|b| - 1];
      TotalSupplyConcat(a, b[..|b| - 1]);
    }
  }

  /** With positive supplies, the loop ends with a trove left exactly if the pool is below the total. */
  lemma {:induction false} Terminates(rows: seq<Row>, pool: real)
    requires rows != [] && forall row :: row in rows ==> row.supply > 0.0
    ensures (exists k :: RedeemsFully(rows, pool, k)) <==> pool < TotalSupply(rows)
  {
    assert rows[..|rows|] == rows;
    if pool < TotalSupply(rows) {
      var k := FirstAbove(rows, pool, |rows| - 1);
    }
    forall k | RedeemsFully(rows, pool, k)
      ensures pool < TotalSupply(rows)
    {
      assert rows == rows[..k + 1] + rows[k + 1..];
      TotalSupplyConcat(rows[..k + 1], rows[k + 1..]);
      TotalSupplyNonNegative(rows[k + 1..]);
    }
  }

  lemma {:induction false} TotalSupplyNonNegative(rows: seq<Row>)
    requires forall row :: row in rows ==> row.supply > 0.0
    ensures TotalSupply(rows) >= 0.0
  {
    if rows != [] {
      TotalSupplyNonNegative(rows[..|rows| - 1]);
    }
  }

  lemma {:induction false} FirstAbove(rows: seq<Row>, pool: real, n: nat) returns (k: nat)
    requires n < |rows| && TotalSupply(rows[..n + 1]) > pool
    ensures k <= n && RedeemsFully(rows, pool, k)
  {
    if exists i :: 1 <= i <= n && TotalSupply(rows[..i]) > pool {
      var i :| 1 <= i <= n && TotalSupply(rows[..i]) > pool;
      k := FirstAbove(rows, pool, i - 1);
    } else {
      k := n;
    }
  }

  /** The supply falls by exactly the pool, and every supply left is positive. */
  lemma {:induction false} SupplyConserved(sorted: seq<Row>, pool: real, price: real, k: nat)
    requires price != 0.0 && RedeemsFully(sorted, pool, k)
    ensures TotalSupply(Remaining(sorted, pool, price, k)) == TotalSupply(sorted) - pool
    ensures Remaining(sorted, pool, price, k)[0].supply > 0.0
    ensures (forall row :: row in sorted ==> row.supply > 0.0)
            ==> forall row :: row in Remaining(sorted, pool, price, k) ==> row.supply > 0.0
  {
    var rest := Remaining(sorted, pool, price, k);
    TotalSupplyStep(sorted, k);
    assert sorted == sorted[..k + 1] + sorted[k + 1..];
    TotalSupplyConcat(sorted[..k + 1], sorted[k + 1..]);
    TotalSupplyConcat(rest[..1], rest[1..]);
    assert rest == rest[..1] + rest[1..] && rest[..1][..0] == [];
    assert TotalSupply(rest[..1]) == rest[0].supply;
  }

  /** The dropped rows have recorded ratios no higher than any row that is kept. */
  lemma RiskiestFirst(sorted: seq<Row>, pool: real, k: nat)
    requires SortedByCR(sorted) && RedeemsFully(sorted, pool, k)
    ensures forall i, j :: 0 <= i < k <= j < |sorted| ==> sorted[i].crCurrent <= sorted[j].crCurrent
  {
  }

  /**
   * The residual trove's recorded ratio becomes its true one, which rises, stays or falls as the
   * collateral was worth more than, as much as, or less than the debt.
   */
  lemma {:induction false} ResidualRatio(row: Row, residual: real, price: real)
    requires price > 0.0 && 0.0 < residual < row.supply
    ensures var after := Redeemed(row, residual, price);
            && after.crCurrent == TrueRatio(after, price)
            && (TrueRatio(after, price) >= TrueRatio(row, price) <==> price * row.etherQuantity >= row.supply)
            && (TrueRatio(after, price) <= TrueRatio(row, price) <==> price * row.etherQuantity <= row.supply)
  {
    var after := Redeemed(row, residual, price);
    var v, s, r := price * row.etherQuantity, row.supply, residual;
    assert price * (residual / price) == residual;
    assert price * after.etherQuantity == v - r;
    assert TrueRatio(after, price) == (v - r) / (s - r);
    RatioAfter(v, s, r);
  }

  lemma RatioAfter(v: real, s: real, r: real)
    requires 0.0 < r < s
    ensures (v - r) / (s - r) >= v / s <==> v >= s
    ensures (v - r) / (s - r) <= v / s <==> v <= s
  {
    var x, y := (v - r) / (s - r), v / s;
    assert x * (s - r) == v - r && y * s == v;
    assert (x - y) * (s - r) == r * (y - 1.0);
    assert (y - 1.0) * s == v - s;
    SignOfProduct(x - y, s - r, y - 1.0, r);
    SignOfProduct(y - 1.0, s, v - s, 1.0);
  }

  lemma SignOfProduct(a: real, b: real, c: real, d: real)
    requires b > 0.0 && d > 0.0 && a * b == d * c
    ensures (a >= 0.0 <==> c >= 0.0) && (a <= 0.0 <==> c <= 0.0)
  {
    assert a > 0.0 ==> a * b > 0.0;
    assert a < 0.0 ==> a * b < 0.0;
    assert c > 0.0 ==> d * c > 0.0;
    assert c < 0.0 ==> d * c < 0.0;
  }
}
