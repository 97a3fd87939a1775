/** The fuzzer's gas histogram (packages/fuzzer/src/GasHistogram.ts). */
module GasHistograms {
  import opened Arithmetic
  import opened Wrappers

  const INTERVAL_WIDTH: nat := 10000
  const NUMBER_OF_BINS: nat := 800

  /** How one sent transaction ended, and the gas limit it was sent with. */
  datatype Attempt = Attempt(succeeded: bool, gasUsed: nat, gasLimit: nat)

  predicate RanOutOfGas(a: Attempt) {
    !a.succeeded && a.gasUsed >= a.gasLimit
  }

  /** `attempts(i)` is how the i-th call of `sendTx` would end. */
  method RetryUpTo(times: nat, attempts: nat -> Attempt) returns (retries: nat, receipt: Attempt)
    ensures retries <= times && receipt == attempts(retries)
    ensures forall i :: 0 <= i < retries ==> RanOutOfGas(attempts(i))
    ensures RanOutOfGas(receipt) ==> retries == times
  {
    retries := 0;
    while true
      invariant retries <= times
      invariant forall i :: 0 <= i < retries ==> RanOutOfGas(attempts(i))
      decreases times - retries
    {
      receipt := attempts(retries);
      if receipt.succeeded || receipt.gasUsed < receipt.gasLimit || retries == times {
        return;
      }
      retries := retries + 1;
    }
  }

  // ---------------------------------------------------------------- what a histogram should say

  function Bin(gasUsed: nat): nat {
    gasUsed / INTERVAL_WIDTH
  }

  /** How many of the recorded amounts fall into `bin`. */
  function Count(recorded: seq<nat>, bin: nat): nat {
    if recorded == [] then 0 else
      var n := |recorded| - 1;
      Count(recorded[..n], bin) + if Bin(recorded[n]) == bin then 1 else 0
  }

  function SumOfFrequencies(results: seq<(int, nat)>): nat {
    if results == [] then 0 else
      SumOfFrequencies(results[..|results| - 1]) + results[|results| - 1].1
  }

  /**
   * A gap-free ascending run of bins, with the number of recordings in each, that starts and ends at
   * a non-empty bin and covers all that was recorded.
   */
  ghost predicate Describes(results: seq<(int, nat)>, recorded: seq<nat>, first: nat) {
    && results != []
    && (forall i :: 0 <= i < |results| ==> results[i] == (10000 * (first + i), Count(recorded, first + i)))
    && results[0].1 > 0 && results[|results| - 1].1 > 0
    && (forall g :: g in recorded ==> first <= Bin(g) < first + |results|)
  }

  /** Every recorded amount lies inside the interval of the bin that counts it. */
  lemma {:induction false} RecordedInItsBin(results: seq<(int, nat)>, recorded: seq<nat>, first: nat, g: nat)
    requires Describes(results, recorded, first) && g in recorded
    ensures var i := Bin(g) - first;
            0 <= i < |results| && results[i].0 <= g < results[i].0 + 10000 && results[i].1 > 0
  {
    DivBounds(g, INTERVAL_WIDTH);
    CountPositive(recorded, g);
  }

  lemma {:induction false} CountPositive(recorded: seq<nat>, g: nat)
    requires g in recorded
    ensures Count(recorded, Bin(g)) > 0
  {
    var n := |recorded| - 1;
    if recorded[n] != g {
      assert recorded == recorded[..n] + [recorded[n]];
      CountPositive(recorded[..n], g);
    }
  }

  /** The frequencies add up to the number of recordings. */
  lemma {:induction false} FrequenciesAddUp(results: seq<(int, nat)>, recorded: seq<nat>, first: nat)
    requires Describes(results, recorded, first)
    ensures SumOfFrequencies(results) == |recorded|
  {
    SumIsCountBetween(results, recorded, first);
    AllBetween(recorded, first, first + |results|);
  }

  function CountBetween(recorded: seq<nat>, lo: nat, hi: nat): nat {
    if recorded == [] then 0 else
      var n := |recorded| - 1;
      CountBetween(recorded[..n], lo, hi) + if lo <= Bin(recorded[n]) < hi then 1 else 0
  }

  lemma {:induction false} CountBetweenStep(recorded: seq<nat>, lo: nat, hi: nat)
    requires lo <= hi
    ensures CountBetween(recorded, lo, lo) == 0
    ensures CountBetween(recorded, lo, hi + 1) == CountBetween(recorded, lo, hi) + Count(recorded, hi)
  {
    if recorded != [] {
      CountBetweenStep(recorded[..|recorded| - 1], lo, hi);
    }
  }

  lemma {:induction false} SumIsCountBetween(results: seq<(int, nat)>, recorded: seq<nat>, first: nat)
    requires forall i :: 0 <= i < |results| ==> results[i].1 == Count(recorded, first + i)
    ensures SumOfFrequencies(results) == CountBetween(recorded, first, first + |results|)
  {
    if results == [] {
      CountBetweenStep(recorded, first, first);
    } else {
      var n := |results| - 1;
      SumIsCountBetween(results[..n], recorded, first);
      CountBetweenStep(recorded, first, first + n);
    }
  }

  lemma {:induction false} AllBetween(recorded: seq<nat>, lo: nat, hi: nat)
    requires forall g :: g in recorded ==> lo <= Bin(g) < hi
    ensures CountBetween(recorded, lo, hi) == |recorded|
  {
    if recorded != [] {
      var n := |recorded| - 1;
      assert forall g :: g in recorded[..n] ==> g in recorded;
      assert recorded[n] in recorded;
      AllBetween(recorded[..n], lo, hi);
    }
  }

  // ---------------------------------------------------------------- array expressions of the source

  /** `findIndex(x => x > 0)`. */
  function FindPositive(s: seq<nat>): (i: int)
    ensures i == -1 ==> forall j :: 0 <= j < |s| ==> s[j] == 0
    ensures i != -1 ==> 0 <= i < |s| && s[i] > 0 && forall j :: 0 <= j < i ==> s[j] == 0
  {
    if s == [] then -1
    else if s[0] > 0 then 0
    else
      var i := FindPositive(s[1..]);
      if i == -1 then -1 else i + 1
  }

  function Reverse(s: seq<nat>): (r: seq<nat>)
    ensures |r| == |s| && forall i :: 0 <= i < |s| ==> r[i] == s[|s| - 1 - i]
  {
    seq(|s|, i requires 0 <= i < |s| => s[|s| - 1 - i])
  }

  /** `slice(start, end)`: negative positions count from the end, and both are clamped. */
  function Slice(s: seq<nat>, start: int, end: int): seq<nat> {
    var a, b := Position(start, |s|), Position(end, |s|);
    if a <= b then s[a..b] else []
  }

  lemma SliceIs(s: seq<nat>, start: int, end: int)
    ensures var a, b, r := Position(start, |s|), Position(end, |s|), Slice(s, start, end);
            |r| == (if a < b then b - a else 0) && forall i :: 0 <= i < |r| ==> r[i] == s[a + i]
  {
  }

  function Position(p: int, length: nat): (q: nat)
    ensures q <= length
  {
    if p < 0 then (if p + length < 0 then 0 else p + length) else if p < length then p else length
  }

  function Results(bins: seq<nat>): seq<(int, nat)> {
    var first, fromEnd := FindPositive(bins), FindPositive(Reverse(bins));
    var slice := Slice(bins, first, |bins| - fromEnd);
    seq(|slice|, i requires 0 <= i < |slice| => (INTERVAL_WIDTH * (first + i), slice[i]))
  }

  /** The bins of a histogram that has recorded `recorded`. */
  ghost predicate Tallies(bins: seq<nat>, recorded: seq<nat>) {
    && (forall b :: 0 <= b < |bins| ==> bins[b] == Count(recorded, b))
    && (forall g :: g in recorded ==> Bin(g) < |bins|)
  }

  /** Searching the reversed bins finds the last positive one. */
  lemma {:induction false} FindLastPositive(bins: seq<nat>)
    ensures var i := FindPositive(Reverse(bins));
            if i == -1 then forall j :: 0 <= j < |bins| ==> bins[j] == 0
            else 0 <= i < |bins| && bins[|bins| - 1 - i] > 0
                 && forall j :: |bins| - 1 - i < j < |bins| ==> bins[j] == 0
  {
    var r := Reverse(bins);
    assert forall j :: 0 <= j < |bins| ==> bins[j] == r[|bins| - 1 - j];
  }

  lemma {:induction false} ResultsDescribe(bins: seq<nat>, recorded: seq<nat>)
    requires Tallies(bins, recorded) && recorded != []
    ensures FindPositive(bins) >= 0 && Describes(Results(bins), recorded, FindPositive(bins))
  {
    forall g | g in recorded
      ensures bins[Bin(g)] > 0
    {
      CountPositive(recorded, g);
    }
    assert bins[Bin(recorded[0])] > 0;
    FindLastPositive(bins);
    var first, last := FindPositive(bins), |bins| - 1 - FindPositive(Reverse(bins));
    ResultsShape(bins, first, last);
    ShapeDescribes(Results(bins), bins, recorded, first, last);
  }

  lemma ShapeDescribes(results: seq<(int, nat)>, bins: seq<nat>, recorded: seq<nat>, first: nat, last: nat)
    requires Tallies(bins, recorded) && first <= last < |bins| && |results| == last + 1 - first
    requires forall i :: 0 <= i < |results| ==> results[i] == (INTERVAL_WIDTH * (first + i), bins[first + i])
    requires bins[first] > 0 && bins[last] > 0 && forall g :: g in recorded ==> first <= Bin(g) <= last
    ensures Describes(results, recorded, first)
  {
    assert results[0].1 == bins[first] && results[|results| - 1].1 == bins[last];
  }

  lemma {:induction false} ResultsShape(bins: seq<nat>, first: nat, last: nat)
    requires first <= last < |bins|
    requires first == FindPositive(bins) && |bins| - 1 - last == FindPositive(Reverse(bins))
    ensures |Results(bins)| == last + 1 - first
    ensures forall i :: 0 <= i < |Results(bins)| ==> Results(bins)[i] == (INTERVAL_WIDTH * (first + i), bins[first + i])
  {
    assert Slice(bins, first, last + 1) == bins[first..last + 1];
  }

  /** With nothing recorded both searches fail, and the result is one bin that lies below zero. */
  lemma {:induction false} ResultsOfNothing(bins: seq<nat>)
    requires bins != [] && Tallies(bins, [])
    ensures Results(bins) == [(-(INTERVAL_WIDTH as int), 0)]
  {
    FindLastPositive(bins);
    assert forall j :: 0 <= j < |bins| ==> bins[j] == 0;
    assert FindPositive(bins) == -1 == FindPositive(Reverse(bins));
    assert Slice(bins, -1, |bins| + 1) == bins[|bins| - 1..];
  }

  lemma {:induction false} TallyOneMore(bins: seq<nat>, recorded: seq<nat>, g: nat)
    requires Tallies(bins, recorded) && Bin(g) < |bins|
    ensures Tallies(bins[Bin(g) := bins[Bin(g)] + 1], recorded + [g])
  {
    assert (recorded + [g])[..|recorded|] == recorded;
  }

  // ---------------------------------------------------------------- the class

  class GasHistogram {
    var expectedFailures: nat
    var outOfGasFailures: nat
    const gasUsedBins: array<nat>
    ghost var recorded: seq<nat>  // the amounts recorded so far, in order

    ghost predicate Valid()
      reads this, gasUsedBins
    {
      gasUsedBins.Length == NUMBER_OF_BINS && Tallies(gasUsedBins[..], recorded)
    }

    constructor ()
      ensures Valid() && fresh(gasUsedBins) && recorded == []
      ensures expectedFailures == 0 && outOfGasFailures == 0
    {
      expectedFailures, outOfGasFailures := 0, 0;
      gasUsedBins := new nat[NUMBER_OF_BINS](_ => 0);
      recorded := [];
    }

    /** Fails, and records nothing, on an amount beyond the last bin. */
    method AddToGasUsedHisto(gasUsed: nat) returns (ok: bool)
      requires Valid()
      modifies gasUsedBins, this`recorded
      ensures Valid()
      ensures ok <==> gasUsed < 8_000_000
      ensures recorded == old(recorded) + if ok then [gasUsed] else []
    {
      var binIndex := gasUsed / INTERVAL_WIDTH;
      ok := binIndex < gasUsedBins.Length;
      if ok {
        TallyOneMore(gasUsedBins[..], recorded, gasUsed);
        gasUsedBins[binIndex] := gasUsedBins[binIndex] + 1;
        recorded := recorded + [gasUsed];
        assert gasUsedBins[..] == old(gasUsedBins[..])[binIndex := old(gasUsedBins[..])[binIndex] + 1];
      }
    }

    function GetResults(): seq<(int, nat)>
      reads this, gasUsedBins
    {
      Results(gasUsedBins[..])
    }

    /** What `getResults` promises: a description of everything recorded, adding up to its number. */
    lemma {:induction false} GetResultsDescribes()
      requires Valid() && recorded != []
      ensures exists first: nat :: Describes(GetResults(), recorded, first)
      ensures SumOfFrequencies(GetResults()) == |recorded|
    {
      ResultsDescribe(gasUsedBins[..], recorded);
      FrequenciesAddUp(GetResults(), recorded, FindPositive(gasUsedBins[..]));
    }

    /** Retries once; a failure that remains is thrown before anything is recorded. */
    method ExpectSuccess(attempts: nat -> Attempt) returns (r: Result<()>)
      requires Valid()
      modifies this`outOfGasFailures, gasUsedBins, this`recorded
      ensures Valid()
      ensures var retries := if RanOutOfGas(attempts(0)) then 1 else 0;
              && outOfGasFailures == old(outOfGasFailures) + retries
              && (r == Err(TransactionFailed) <==> !attempts(retries).succeeded)
              && (r.Ok? ==> recorded == old(recorded) + [attempts(retries).gasUsed])
              && (r.Err? ==> recorded == old(recorded))
              && (attempts(retries).succeeded ==>
                    (r.Ok? <==> attempts(retries).gasUsed < 8_000_000))
    {
      var retries, receipt := RetryUpTo(1, attempts);
      outOfGasFailures := outOfGasFailures + retries;
      if !receipt.succeeded {
        return Err(TransactionFailed);
      }
      var ok := AddToGasUsedHisto(receipt.gasUsed);
      r := if ok then Ok(()) else Err(AssertionFailed);
    }

    /** `threw` is whether `waitForSuccess` throws; not throwing is the error here. */
    method ExpectFailure(threw: bool) returns (ok: bool)
      modifies this`expectedFailures
      ensures ok == threw && expectedFailures == old(expectedFailures) + if threw then 1 else 0
    {
      if threw {
        expectedFailures := expectedFailures + 1;
        return true;
      }
      ok := false;
    }
  }
}
