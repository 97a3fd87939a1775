# Liquity SDK core, modelled and proved in Dafny

A model of the arithmetic, text, fee, trove and store code of the Liquity SDK (`packages/lib-base`),
of the Stability Pool's accounting in the contracts, and of three smaller pieces: the redemption loop of
the macroeconomic model, the fuzzer's gas histogram, and the contracts' own decimal converter. Check it with `dafny verify dfyconfig.toml`.

| file | models |
|---|---|
| `Decimal.dfy` | 18-digit fixed-point arithmetic, with `pow` as the loop it is |
| `PowAccuracy.dfy`, `PowTolerance.dfy` | how far `pow` is from the exact power |
| `Digits.dfy`, `DecimalText.dfy`, `DecimalPrint.dfy`, `DecimalDisplay.dfy` | reading, printing, rounding and abbreviating Decimals |
| `Fees.dfy` | rates that decay by the minute |
| `Trove.dfy` | troves, changes between them, and fees taken off and put on |
| `StoreState.dfy`, `Listeners.dfy`, `StoreRuns.dfy`, `StoreReports.dfy`, `LiquityStore.dfy` | the store: reducers over references, notification rounds, whole runs, what listeners are told, and the class updated in place |
| `PoolState.dfy`, `PoolRuns.dfy`, `StabilityPool.dfy` | the Stability Pool: deposits that shrink through one running product, what runs keep, and the contract updated in place |
| `PoolCover.dfy`, `PoolFairness.dfy`, `PoolGains.dfy`, `PoolPayouts.dfy` | when the pool covers its deposits, how fairly offsets fall on them, the ETH they gain, and each one's part of it |
| `Redemption.dfy` | the floor-arbitrage redemption loop |
| `GasHistogram.dfy` | the histogram class and its retry loop |
| `BNConverter.dfy` | the second decimal converter |
| `Arithmetic.dfy`, `Wrappers.dfy` | division and power facts; results and errors |

A Decimal is its `_bigNumber`, an unbounded count of units of 10^-18 ("units" below). BigNumber is
unbounded, so nothing wraps; only the loop of `pow` uses 32-bit operators, and these are written out.
What the source lets throw is an `Err`.

Where the code and what is written about it differ, the model follows the code:

- `LiquityStore._update` is commented as deriving state "based on passage of time", but every derived
  field is computed at the time of the latest block, which is part of the base state. An update without
  arguments therefore changes nothing (`TickIsQuiet`).
- `Decimal._fromString` truncates the coefficient before it applies a positive exponent, so digits after
  the 18th are lost even if the exponent would bring them back (`FromStringPositiveExponent`,
  `PositiveExponentLosesDigits`).
- `shorten` can show a mantissa of "1,000" just below the next magnitude (`ShortenCarry`, `ShortenCarries`).
- `BNConverter.makeDecimal` at zero decimal places writes all digits twice: 12 becomes 12.12
  (`MakeDecimalDenotes`, `MakeDecimalOfWholes`).
- StabilityPool.sol says that the error in any compounded deposit favours the pool. That holds as long as
  no offset leaves a smaller error pending than it has started from (`RunCoversWhileErrorsKept`), and for a
  pool that its deposits make up wholly only then (`OffsetKeepsCoverOnlyThen`). Otherwise the deposits can
  exceed the pool, by at most a 10^18-th of the largest pool there has been (`RunCovers`), and do so by
  nearly half of that (`ExcessIsAttained`); gains can exceed the ETH in the same way (`GainsExceed`).
- StabilityPool.sol calls 10^9 units the product's minimum. An offset keeps it exactly if it empties the
  pool or would leave at least one unit of the product at the same scale (`ProductInRange`, `RunInRange`);
  otherwise the product can fall to one unit (`ProductReachesOne`).
- An update of the store that fails changes the base state, and no listener is ever told
  (`RunReported`, `UnseenChange`).
- Applying what changed between two troves need not reproduce the second exactly when there is a fee
  (`ChangeRoundTripExact`, `ChangeRoundTripInexact`).

## Model

| member | source | states |
|---|---|---|
| Decimals.Pow | packages/lib-base/src/Decimal.ts:239-263 | the loop, with JavaScript's 32-bit shift and mask, computes the specified power for exponents 0 to 2^32 - 1 and fails its assertion for all others |
| Decimals.RoundedMulIsNearest | packages/lib-base/src/Decimal.ts:17 | the product is rounded to the nearest unit, ties upwards |
| Decimals.PowMonotoneInExponent | packages/lib-base/src/Decimal.ts:239-263 | for bases up to 1.0 a larger exponent never gives a larger power, and for bases from 1.0 never a smaller one, in spite of rounding at every step and across binary carries |
| Decimals.PowLoopCarry | packages/lib-base/src/Decimal.ts:251-262 | the step behind it: the runs on n and n + 1 stay ordered although they multiply different numbers |
| Decimals.PowMonotoneInBase | packages/lib-base/src/Decimal.ts:239-263 | a larger base never gives a smaller power |
| Decimals.PowWhole | packages/lib-base/src/Decimal.ts:239-263 | powers of whole numbers are exact |
| PowAccuracy.PowLoopError | packages/lib-base/src/Decimal.ts:251-262 | the loop invariant: square, accumulator and remaining exponent stay tied to the exact power, with an error that is linear in the exponent |
| PowAccuracy.PowError | packages/lib-base/src/Decimal.ts:239-263 | for bases up to 1.0 and n >= 1 the result is within (n - 1) / 2 units of the exact real power |
| PowAccuracy.PowRelativeError | packages/lib-base/src/Decimal.ts:239-263 | for bases from 1.0 the result is within the factors (1 - e)^(n - 1) and (1 + e)^(n - 1) of the exact power, where e is half of 10^-18 |
| PowAccuracy.PowComposes | packages/lib-base/src/Decimal.ts:17-263 | decaying by n + m, and by n and m and multiplying, differ by at most n + m - 1 units |
| PowTolerance.PowWithinTolerance | packages/lib-base/test/Decimal.test.ts:190-201 | for every base up to 1.0 and every exponent `pow` accepts, the result is within 10^-9 of the exact power, the tolerance the library's test asks for |
| PowTolerance.NearOneError | packages/lib-base/src/Decimal.ts:251-262 | for bases within 2.6 * 10^-10 of 1.0 the error grows by less than 0.2265 units per unit of exponent |
| PowTolerance.FarFromOneError | packages/lib-base/src/Decimal.ts:251-262 | for all other bases up to 1.0, and exponents from 3 * 2^29 on, decay keeps the error below 0.99858 * 10^9 units |
| Decimals.DivCeilIsLeast | packages/lib-base/src/Decimal.ts:201-226 | `_divCeil` is the least quotient whose product with the divisor reaches the dividend |
| Decimals.Truncations | packages/lib-base/src/Decimal.ts:201-237 | `mul`, `div` and `mulDiv` are the exact results truncated |
| Decimals.DivisionByZero | packages/lib-base/src/Decimal.ts:207-237 | dividing by zero gives infinity |
| Decimals.InfinityIsLargest | packages/lib-base/src/Decimal.ts:7-36 | infinity is the largest number of 256 bits |
| Decimals.SubExact | packages/lib-base/src/Decimal.ts:53-199 | subtraction is exact, or fails where the difference would be negative |
| Decimals.MulOfDiv | packages/lib-base/src/Decimal.ts:201-213 | dividing and multiplying back never gains, and loses less than b / 10^18 + 1 units |
| Decimals.MulDivAboveMulThenDiv | packages/lib-base/src/Decimal.ts:201-237 | `mulDiv` is never below `mul` then `div`, and exceeds it by less than one unit of the quotient plus 10^18 / d |
| DecimalText.FormatIsRegex | packages/lib-base/src/Decimal.ts:13 | the format check accepts exactly the strings that split into the groups of the regular expression |
| DecimalText.Accepted | packages/lib-base/src/Decimal.ts:65-109 | parsing succeeds exactly for strings in the format whose coefficient is not empty, and has one error |
| DecimalText.FromStringIsFloor | packages/lib-base/src/Decimal.ts:65-109 | without a positive exponent the result is the denoted rational truncated to 18 places, although a negative exponent truncates twice |
| DecimalText.FromStringPositiveExponent | packages/lib-base/src/Decimal.ts:82-109 | with a positive exponent the result is never above that, and equals it exactly if the digits from the 19th on that the exponent would bring back are all zeros |
| DecimalText.PositiveExponentLosesDigits | packages/lib-base/src/Decimal.ts:82-109 | a representation for which it falls short |
| DecimalPrint.ParsePrint | packages/lib-base/src/Decimal.ts:130-141 | reading the automatic-precision print gives the number back |
| DecimalPrint.ToStringRoundTrip | packages/lib-base/src/Decimal.ts:166-174 | `toString()` followed by reading gives the Decimal back exactly if it is not INFINITY |
| DecimalPrint.CanonicalForm | packages/lib-base/src/Decimal.ts:65-141 | a string is left alone by reading and printing exactly if it is canonical: a numeral, and at most 18 fractional digits without a trailing zero |
| DecimalPrint.PrecisionPrint | packages/lib-base/src/Decimal.ts:143-164 | below 18 places the print has the places asked for and denotes the half-up rounding, carries included; from 18 on it is exact |
| DecimalPrint.NearestIsNearest | packages/lib-base/src/Decimal.ts:143-164 | that rounding is within half a unit of the last place, ties upwards |
| DecimalPrint.NearestMonotone | packages/lib-base/src/Decimal.ts:143-164 | that rounding is monotone |
| DecimalPrint.PrecisionPrintStable | packages/lib-base/src/Decimal.ts:148-164 | reading a print and printing it at the same precision gives the same text |
| DecimalPrint.ToStringFails | packages/lib-base/src/Decimal.ts:143-174 | printing fails exactly at a negative precision, and for infinity never |
| DecimalDisplay.PrettifyOnlyGroups | packages/lib-base/src/Decimal.ts:176-181 | deleting the commas gives back `toString`; the integer part is one to three digits and then groups of exactly three; the fraction is untouched |
| DecimalDisplay.PrettifyInfinity | packages/lib-base/src/Decimal.ts:176-181 | infinity is shown as its symbol at every precision |
| DecimalDisplay.ShortenRoundsOnce | packages/lib-base/src/Decimal.ts:183-191 | for finite values below INFINITY the number shown is one half-up rounding of the exact quotient, although the code truncates first |
| DecimalDisplay.ShortenIsBody | packages/lib-base/src/Decimal.ts:183-191 | what is printed is that number, commas and the suffix |
| DecimalDisplay.ShortenMagnitude | packages/lib-base/src/Decimal.ts:183-190 | the suffix is the one that fits the rounded integer part, and the places shown complete three digits |
| DecimalDisplay.ShortenCarry | packages/lib-base/src/Decimal.ts:183-191 | below the last suffix the integer part shown is at most 1000, and is 1000 exactly from 999.5 of the magnitude on |
| DecimalDisplay.ShortenCarries | packages/lib-base/src/Decimal.ts:183-191 | 999,500 is shown as "1,000K" |
| DecimalDisplay.ShortenPower | packages/lib-base/src/Decimal.ts:15-191 | a power of a thousand is shown as 1.00 with its own suffix: none, K, M, B or T |
| DecimalDisplay.ShortenInfinity | packages/lib-base/src/Decimal.ts:183-191 | infinity is shown as its symbol, without suffix |
| FeeRates.ConstantsAsWritten | packages/lib-base/src/constants.ts:54-68 | the rate constants are what their decimal texts parse to |
| FeeRates.RatesFall | packages/lib-base/src/Fees.ts:82-159 | base, borrowing and redemption rate never rise with time, and can be computed at every earlier time if at a later one |
| FeeRates.NoDecayInFirstMinute | packages/lib-base/src/Fees.ts:82-92 | before a full minute after the last fee operation, and at any time before it, the rate is the undecayed one |
| FeeRates.ElapsedIsFullMinutes | packages/lib-base/src/Fees.ts:82-89 | the full minutes from the last fee operation to the given time, by default that of the latest block, or none |
| FeeRates.BaseRateRange | packages/lib-base/src/Fees.ts:82-92 | the base rate is between zero and the undecayed rate |
| FeeRates.BaseRateAccuracy | packages/lib-base/src/Fees.ts:82-92 | it is within (n - 1) / 2 + 1 units of exact exponential decay over n >= 1 minutes, for undecayed rates up to 1.0 |
| FeeRates.SplitDecay | packages/lib-base/src/Fees.ts:82-92 | restarting the clock with the decayed rate in between drifts by at most n + m + 1.5 units |
| FeeRates.BorrowingRateRange | packages/lib-base/src/Fees.ts:115-119 | the borrowing rate is zero exactly in recovery mode, and otherwise between 0.5% and 5% |
| FeeRates.BorrowingRateParts | packages/lib-base/src/Fees.ts:115-119 | below 5% the borrowing rate is exactly 0.5% above the base rate, and it is 5% exactly from a base rate of 4.5% on |
| FeeRates.RedemptionRateRange | packages/lib-base/src/Fees.ts:150-159 | the redemption rate is between 0.5% and 100% |
| FeeRates.RedemptionRateParts | packages/lib-base/src/Fees.ts:150-159 | below 100% the redemption rate exceeds 0.5% and the base rate by the redeemed fraction over beta, truncated |
| FeeRates.RedemptionRateCap | packages/lib-base/src/Fees.ts:150-159 | the redemption rate is 100% exactly if the redeemed fraction makes up for what 0.5% and the base rate leave |
| FeeRates.RedemptionRateWithoutBeta | packages/lib-base/src/Fees.ts:150-159 | with a zero beta any redemption costs 100%; redeeming nothing costs 0.5% and the base rate, up to 100% |
| FeeRates.RedemptionRateGrows | packages/lib-base/src/Fees.ts:150-159 | redeeming a larger fraction never lowers the rate, also with a zero beta |
| FeeRates.RecoveryModeOnlyBorrowing | packages/lib-base/src/Fees.ts:47-56 | setting the recovery mode touches the borrowing rate only |
| FeeRates.FeesFail | packages/lib-base/src/Fees.ts:82-159 | fees fail exactly beyond 2^32 - 1 elapsed minutes, and in recovery mode borrowing does not |
| Troves.FeeRoundTrip | packages/lib-base/src/Trove.ts:396-400 | taking the fee off rounded up and putting it on rounded down never falls short, and overshoots by at most (10^18 + rate - 1) / 10^18 units, truncated |
| Troves.FeeRoundTripExact | packages/lib-base/src/Trove.ts:396-400 | it is exact exactly if the quotient needs no rounding, or rounding it up adds less than 1.0 to the product |
| Troves.ChangeRoundTrip | packages/lib-base/src/Trove.ts:540-665 | applying what changed from a to b onto a gives b's collateral and a debt that overshoots by at most that; computing the change fails exactly when a trove with less debt than the reserve is emptied |
| Troves.ChangeKinds | packages/lib-base/src/Trove.ts:561-600 | the change is none for equal troves, a creation from nothing, invalid below the reserve, a closure to nothing, and an adjustment otherwise |
| Troves.ChangeApplied | packages/lib-base/src/Trove.ts:540-665 | for any two different troves, applying the change gives b's collateral, and b's debt but for what the fee does to the part that is borrowed |
| Troves.ChangeRoundTripExact | packages/lib-base/src/Trove.ts:540-665 | the result is exactly b exactly if the fee taken off and put on the borrowed part is exact |
| Troves.ChangeRoundTripWithoutFee | packages/lib-base/test/Trove.test.ts:82-88 | at borrowing rate 0 it gives exactly b |
| Troves.ChangeRoundTripInexact | packages/lib-base/src/Trove.ts:396-400 | at 5%, 20 units more of debt become 21 |
| Troves.ConstantsAsWritten | packages/lib-base/src/constants.ts:8-22 | the ratios and the reserve are what their decimal texts parse to |
| Troves.ZeroingPreserved | packages/lib-base/test/Trove.test.ts:62-80 | a change that zeroes debt or collateral zeroes it on any trove |
| Troves.ApplyAdjusts | packages/lib-base/src/Trove.ts:641-665 | an adjustment of any trove changes both amounts by what it names, through the fee where debt is borrowed, stopping at zero, or zeroes one |
| Troves.ApplyFails | packages/lib-base/src/Trove.ts:607-639 | applying fails exactly for a creation onto a trove, and for a closure without one |
| Troves.ClosurePays | packages/lib-base/src/Trove.ts:580-587 | a closure takes out all collateral and repays the debt above the reserve, if there is any |
| Troves.ClosurePreserved | packages/lib-base/test/Trove.test.ts:54-60 | a closure computed from one trove closes any other |
| Troves.AdjustmentsNameNoZeros | packages/lib-base/test/Trove.test.ts:107-122 | between different non-empty troves the change is an adjustment that names no zero amount |
| Troves.RatioThreshold | packages/lib-base/src/Trove.ts:446-485 | a collateral ratio is below a threshold exactly if the trove has debt and its collateral's exact value is below that share of it, although the ratio is truncated |
| Troves.RedistributionInTwoSteps | packages/lib-base/src/Trove.ts:804-816 | a trove that collects a redistribution in two steps has what it has after one, or one unit less of either |
| Troves.RedistributionIs | packages/lib-base/src/Trove.ts:804-816 | collateral and debt each grow by the stake times what was redistributed since the snapshot, truncated; owner and status stay |
| Troves.RedistributionConserves | packages/lib-base/src/Trove.ts:804-816 | any number of troves together gain at most what is due to their stakes, and less by under a unit each |
| Troves.DueToTotalStake | packages/lib-base/src/Trove.ts:804-808 | to troves with one snapshot is due what is due to the sum of their stakes |
| Troves.RedistributionGrows | packages/lib-base/src/Trove.ts:804-816 | redistributing more never leaves a trove with less of either, nor with less than before, and redistributing nothing leaves it as it was |
| StoreState.EqualsIsEquality | packages/lib-base/src/LiquityStore.ts:179-186 | the comparisons used by the reducers miss no field |
| StoreState.ReduceOverwrites | packages/lib-base/src/LiquityStore.ts:293-480 | in values, `_reduce` is overwriting the given fields; types are kept |
| StoreState.ReduceDerivedReplaces | packages/lib-base/src/LiquityStore.ts:503-531 | in values, `_reduceDerived` is replacing the derived state |
| StoreState.DifferenceIsValueChange | packages/lib-base/src/LiquityStore.ts:195-318 | after reducing, comparing references finds exactly the changed values, and unchanged fields keep their reference |
| StoreState.DifferencePatches | packages/lib-base/src/LiquityStore.ts:195-198 | `difference` holds what takes the old state to the new one, and nothing held already |
| StoreState.DeriveWellTyped | packages/lib-base/src/LiquityStore.ts:482-501 | derived values have their declared types |
| StoreState.DeriveFails | packages/lib-base/src/LiquityStore.ts:482-501 | `_derive` throws exactly if more than 2^32 - 1 minutes lie between the last fee operation and the latest block |
| StoreState.DeriveMeans | packages/lib-base/src/LiquityStore.ts:482-501 | each derived field by name: the trove with its redistribution; the fees in recovery mode exactly if the total collateral is worth less than 150% of the debt; the borrowing rate, zero exactly then; the redemption rate of nothing redeemed; and whether the riskiest trove, redistribution included, is worth less than 110% of its debt |
| Listeners.CalledUnlessRemoved | packages/lib-base/src/LiquityStore.ts:536-548 | whatever the callbacks do, a listener is called exactly if no call made before its turn has ended its subscription |
| Listeners.OnlyOldListenersOnce | packages/lib-base/src/LiquityStore.ts:536-548 | calls are a subsequence of the listeners in subscription order; none is called twice, and none that was added during the round |
| Listeners.RoundKeeps | packages/lib-base/src/LiquityStore.ts:536-564 | after a round, an old listener is registered exactly if no call ended its subscription |
| Listeners.UnsubscribeUndoes | packages/lib-base/src/LiquityStore.ts:556-564 | the returned function undoes the subscription |
| Listeners.SubscriptionsIndependent | packages/lib-base/src/LiquityStore.ts:193-564 | thanks to `wrap`, two subscriptions of one function are independent |
| StoreRuns.NextInv | packages/lib-base/src/LiquityStore.ts:260-610 | every event keeps the types, the timer discipline and the registry's invariant |
| StoreRuns.RunRefinesNaive | packages/lib-base/src/LiquityStore.ts:293-610 | over any run the store holds the values of a naive one that overwrites its fields and recomputes everything, failures included |
| StoreRuns.NextConsistent | packages/lib-base/src/LiquityStore.ts:567-610 | after a load or update each derived field is what `_derive` makes of the base state exactly if the new fees are not too old; no other event matters |
| StoreRuns.RunConsistent | packages/lib-base/src/LiquityStore.ts:567-610 | in every state of a run from the first load on, that holds exactly if the fees in the base state are not too old |
| StoreRuns.RunMeans | packages/lib-base/src/LiquityStore.ts:482-610 | so each derived field of the store is what its name means, in every loaded state of a run whose fees are not too old |
| StoreRuns.ChangeIsExact | packages/lib-base/src/LiquityStore.ts:583-610 | `stateChange` holds exactly the base and derived fields whose values changed, with the new reference; all others keep theirs |
| StoreReports.RunReported | packages/lib-base/src/LiquityStore.ts:195-610 | from a loaded state on, the reported changes have added up to the state at every point exactly if no update has changed a field while it failed for fees that are too old |
| StoreReports.NotToldLater | packages/lib-base/src/LiquityStore.ts:195-610 | a change that was not reported is not reported later, unless the field changes again |
| StoreReports.UnseenChange | packages/lib-base/src/LiquityStore.ts:583-610 | an update with fees that are 2^32 minutes old changes the state and reports nothing |
| StoreRuns.ListenersTold | packages/lib-base/src/LiquityStore.ts:536-610 | listeners are told in one round after every update that succeeds, timers' included, and not otherwise; loading again changes nothing |
| StoreRuns.TickIsQuiet | packages/lib-base/src/LiquityStore.ts:276-610 | a timer firing on a consistent store changes no value and no reference, reports an empty change, and sets exactly one new timer |
| StoreRuns.RunTimers | packages/lib-base/src/LiquityStore.ts:270-283 | in every state of a run at most one timer is live, and it is the recorded one |
| StoreRuns.OneTimerAfterSuccess | packages/lib-base/src/LiquityStore.ts:276-283 | after a load or update exactly the newly recorded timer is live if the fees are not too old, and otherwise the timers are as they were |
| StoreRuns.StoppedUntilUpdate | packages/lib-base/src/LiquityStore.ts:260-274 | after the stop function no timer is live, fires or changes anything until a later load or update, although the recorded id stays |
| StoreRuns.FailingTickStopsPolling | packages/lib-base/src/LiquityStore.ts:276-283 | a timer that fires is followed by no other exactly if the fees are too old, and then none is recorded |
| StoreRuns.PollingStops | packages/lib-base/src/LiquityStore.ts:276-610 | an update with fees that are 2^32 minutes old is kept in the base state only, and the next timer is the last |
| LiquityStores.LiquityStore.NotifyListeners | packages/lib-base/src/LiquityStore.ts:536-548 | the loop over the copy makes the calls, and leaves the registry, of the specified round |
| LiquityStores.LiquityStore.SubscribeListener | packages/lib-base/src/LiquityStore.ts:556-560 | adds a listener of its own for the function at the end of the registry, and changes nothing else |
| LiquityStores.LiquityStore.UnsubscribeListener | packages/lib-base/src/LiquityStore.ts:561-563 | removes that one listener, and changes nothing else |
| LiquityStores.LiquityStore.ScheduleUpdate | packages/lib-base/src/LiquityStore.ts:270-283 | cancels the recorded timer, and records and sets a new one |
| LiquityStores.LiquityStore.DeriveState | packages/lib-base/src/LiquityStore.ts:482-501 | creates objects that hold the derived values, or fails as the fees do |
| LiquityStores.LiquityStore.LoadState | packages/lib-base/src/LiquityStore.ts:567-580 | the fields after `_load` are those of the machine, also when it is called again or throws |
| LiquityStores.LiquityStore.UpdateState | packages/lib-base/src/LiquityStore.ts:583-610 | the fields after `_update` are those of the machine, and the report holds the old and new state, the change and the calls |
| LiquityStores.LiquityStore.FireTimer | packages/lib-base/src/LiquityStore.ts:276-283 | the timer's callback, and that its report is empty on a consistent store |
| LiquityStores.LiquityStore.StopMonitoring | packages/lib-base/src/LiquityStore.ts:260-274 | cancels the recorded timer and changes nothing else |
| PoolRuns.RunCovers | packages/contracts/contracts/StabilityPool.sol:486-849 | over any run of deposits, withdrawals and offsets, across scales and epochs, all compounded deposits together are at most the pool while no offset has started from an error, and always at most the pool and a 10^18-th of the largest pool there has been |
| PoolRuns.RunNearlyCovers | packages/contracts/contracts/StabilityPool.sol:532-849 | they exceed the pool by at most a 10^18-th of the largest error an offset has started from, less the pending error |
| PoolCover.RunCoversWhileErrorsKept | packages/contracts/contracts/StabilityPool.sol:532-849 | over any run in which no offset leaves a smaller error than it has started from, but for those that empty the pool, all compounded deposits together are at most the pool |
| PoolCover.OffsetKeepsCover | packages/contracts/contracts/StabilityPool.sol:532-642 | a pool whose deposits are worth at most its total stays so through such an offset |
| PoolCover.OffsetKeepsCoverOnlyThen | packages/contracts/contracts/StabilityPool.sol:532-642 | where the deposits are worth exactly the total and the product is not rounded, an offset keeps the cover if and only if the error it will leave, computed from the state before, is not smaller |
| PoolCover.ExcessIsAttained | packages/contracts/contracts/StabilityPool.sol:532-820 | for every m, two offsets leave a deposit that exceeds its pool by m - 1 units, where a 10^18-th of the largest pool is 2 m |
| PoolFairness.FairLoss | packages/contracts/contracts/StabilityPool.sol:532-622 | any offset takes from any deposit the part that the debt is of the pool, between the error carried in and the two roundings |
| PoolFairness.RunFair | packages/contracts/contracts/StabilityPool.sol:332-849 | over any part of a run in which its owner leaves it alone, a deposit follows the ideal product of what each offset leaves of the pool, and the errors only add up |
| PoolFairness.RunCompoundedFair | packages/contracts/contracts/StabilityPool.sol:332-849 | so does the compounded deposit, less than another unit below, and it is nothing exactly if it does not count any more |
| PoolFairness.OffsetsFollowPool | packages/contracts/contracts/StabilityPool.sol:532-622 | over offsets only, the error feedback keeps a deposit its part of the pool: above it by at most its part of the largest error, however many offsets there are, and below by the pending error and a unit of the product for each |
| PoolRuns.OffsetNeverRaises | packages/contracts/contracts/StabilityPool.sol:574-820 | no compounded deposit is larger after an offset, also when the scale or epoch changes |
| PoolRuns.CompoundedIsWorth | packages/contracts/contracts/StabilityPool.sol:750-820 | a compounded deposit is its exact worth, truncated once in spite of two divisions, if it is of the current epoch, at most one scale change old and worth a 10^9-th of its initial value; otherwise it is nothing |
| PoolRuns.CutOffIsSmall | packages/contracts/contracts/StabilityPool.sol:806-808 | what is cut off after two scale changes is worth at most the initial value over the product it was made at |
| PoolRuns.CompoundedAtMostInitial | packages/contracts/contracts/StabilityPool.sol:346-346 | so the loss computed for the event log never underflows |
| PoolRuns.UpdatesExact | packages/contracts/contracts/StabilityPool.sol:332-414 | depositing and withdrawing change the depositor's compounded deposit and the total by the same amount, and no other deposit |
| PoolRuns.WithdrawFails | packages/contracts/contracts/StabilityPool.sol:379-414 | a withdrawal fails exactly without a deposit, or if the pool is short of the amount |
| PoolRuns.OffsetFails | packages/contracts/contracts/StabilityPool.sol:515-622 | an offset fails exactly for more than the pool, for less than the pending error, or if the product would round to zero at the finer scale too; the assertion on the loss always holds |
| PoolRuns.ProductInRange | packages/contracts/contracts/StabilityPool.sol:574-622 | after an offset the product is 10^9 units at least exactly if the pool is emptied or the product times the factor is one unit at least, as the state before tells; nothing else changes the product |
| PoolRuns.RunInRange | packages/contracts/contracts/StabilityPool.sol:574-622 | the product has been in that range throughout a run exactly if every offset has met that condition |
| PoolRuns.ProductReachesOne | packages/contracts/contracts/StabilityPool.sol:606-618 | two offsets and a deposit after which the product is one unit |
| PoolRuns.NextValid | packages/contracts/contracts/StabilityPool.sol:332-640 | the product stays positive and at most 1.0, and every deposit of the epoch stays within what it was made with |
| PoolGains.RunGainsBacked | packages/contracts/contracts/StabilityPool.sol:515-690 | over any run in which no offset leaves a smaller loss error than it has started from, all depositors' gains together are at most the ETH received and not paid out, across scales and epochs, so that no payment fails for want of ETH |
| PoolGains.RunGainsNearlyBacked | packages/contracts/contracts/StabilityPool.sol:515-690 | over any run they exceed it by at most what the errors carried allow, less the pending error |
| PoolGains.GainsExceed | packages/contracts/contracts/StabilityPool.sol:515-690 | for every m, three offsets after which a gain exceeds the ETH by m - 1 units |
| PoolGains.PaysOut | packages/contracts/contracts/StabilityPool.sol:332-461 | a deposit or withdrawal pays out the gain, after which there is none, and changes no other; it fails exactly if it does without gains or the ETH falls short |
| PoolPayouts.RunPays | packages/contracts/contracts/StabilityPool.sol:515-690 | over any part of a run in which its owner leaves it alone, a deposit's gain grows by its part of the collateral of each offset until a second scale change, between its parts of the errors, and a 10^18-th for each offset, a unit, and a unit of the sum |
| PoolGains.OffsetPending | packages/contracts/contracts/StabilityPool.sol:574-600 | through either of the two sums that count, an offset adds to a deposit's exact gain just the gain per unit for its exact worth, and nothing after that |
| PoolGains.GainAtMostPending | packages/contracts/contracts/StabilityPool.sol:666-690 | a gain with its divisions is at most the exact one |
| PoolGains.PendingNearGain | packages/contracts/contracts/StabilityPool.sol:666-690 | and falls short of it by less than a unit and what a unit of the second sum is worth |
| StabilityPools.StabilityPool.OffsetPool | packages/contracts/contracts/StabilityPool.sol:515-642 | `offset` makes the specified step, and reverts what it changed if it fails |
| StabilityPools.StabilityPool.ComputeRewardsPerUnitStaked | packages/contracts/contracts/StabilityPool.sol:532-571 | loss, gain and the two new errors are the specified ones |
| StabilityPools.StabilityPool.UpdateRewardSumAndProduct | packages/contracts/contracts/StabilityPool.sol:574-622 | the new sum, product, scale and epoch are the specified ones |
| StabilityPools.StabilityPool.ProvideToSP | packages/contracts/contracts/StabilityPool.sol:332-367 | `provideToSP` makes the specified step, and pays out the gain |
| StabilityPools.StabilityPool.WithdrawFromSP | packages/contracts/contracts/StabilityPool.sol:379-414 | `withdrawFromSP` makes the specified step, and sends the smaller of amount and compounded deposit, and the gain |
| Redemption.Redeem | packages/contracts/macroModel/macro_model.py:318-334 | the loop succeeds exactly if some running total exceeds the pool, and then has dropped the prefix of the only possible length, which it counts, and rewritten the next row only |
| Redemption.Terminates | packages/contracts/macroModel/macro_model.py:320-326 | with positive supplies that is exactly if the pool is below the total supply |
| Redemption.SupplyConserved | packages/contracts/macroModel/macro_model.py:322-332 | total supply falls by exactly the pool, and the residual trove keeps a positive supply |
| Redemption.RiskiestFirst | packages/contracts/macroModel/macro_model.py:319-326 | no dropped trove has a higher recorded ratio than one that is kept |
| Redemption.ResidualRatio | packages/contracts/macroModel/macro_model.py:329-334 | the residual trove's recorded ratio becomes its true one, which does not fall exactly if its collateral was worth at least its debt |
| GasHistograms.RetryUpTo | packages/fuzzer/src/GasHistogram.ts:13-38 | at most times + 1 attempts, all but the last having run out of gas, and the last too only if the retries are used up |
| GasHistograms.ResultsDescribe | packages/fuzzer/src/GasHistogram.ts:52-62 | with anything recorded the results are a gap-free ascending run of bins with their counts, non-empty at both ends, that covers all recordings |
| GasHistograms.FrequenciesAddUp | packages/fuzzer/src/GasHistogram.ts:52-62 | the frequencies add up to the number of recordings |
| GasHistograms.RecordedInItsBin | packages/fuzzer/src/GasHistogram.ts:46-62 | every recorded amount lies inside the interval of its bin |
| GasHistograms.ResultsOfNothing | packages/fuzzer/src/GasHistogram.ts:52-62 | with nothing recorded the result is one empty bin below zero |
| GasHistograms.SliceIs | packages/fuzzer/src/GasHistogram.ts:52-62 | `slice` as `getResults` uses it, with positions that may be negative or out of range |
| GasHistograms.GasHistogram.AddToGasUsedHisto | packages/fuzzer/src/GasHistogram.ts:46-50 | increments the amount's bin, or fails beyond the last bin and records nothing |
| GasHistograms.GasHistogram.ExpectSuccess | packages/fuzzer/src/GasHistogram.ts:64-74 | counts the retry, throws for a final failure, and records the gas of a success |
| GasHistograms.GasHistogram.ExpectFailure | packages/fuzzer/src/GasHistogram.ts:76-85 | counts a transaction that throws, and fails for one that does not |
| GasHistograms.GasHistogram.GetResultsDescribes | packages/fuzzer/src/GasHistogram.ts:52-62 | of a histogram object, `getResults` describes all it has recorded |
| BNConverter.MakeBNScales | packages/contracts/utils/BNConverter.js:17-32 | `makeBN` scales the numeral by 10^precision exactly |
| BNConverter.AgreesWithDecimal | packages/contracts/utils/BNConverter.js:17-44 | at 18 places it agrees with `Decimal` wherever it accepts, which is exactly where `Decimal` does with at most 18 fractional digits, but for "." |
| BNConverter.MakeBNFails | packages/contracts/utils/BNConverter.js:17-40 | `makeBN` fails exactly for text that is no number, and for more places than asked for, with an error of its own each |
| BNConverter.MakeDecimalDenotes | packages/contracts/utils/BNConverter.js:47-64 | the number made is n / 10^digits exactly if there is a decimal place or n is zero |
| BNConverter.MakeDecimalInverse | packages/contracts/utils/BNConverter.js:17-64 | `makeDecimal`, `toFixed` with as many places and `makeBN`, with or without a precision, give the number back exactly if there is a decimal place or the first digit is below 5, and otherwise one more |
| BNConverter.MakeDecimalOfWholes | packages/contracts/utils/BNConverter.js:47-64 | without decimal places 12 becomes 12.12, and 7 is printed as 8 |

## Left out

- Conversions from JavaScript numbers: `Decimal.from` is modelled for strings and Decimals only, and exponents of `pow` are integers.
- `Difference` and `Percent`, comparisons, `add`, `zero`, `nonZero` and the like: settled by reading their bodies.
- StabilityDeposit.ts and LQTYStake.ts beyond their fields: `whatChanged` and `apply` there have three branches each.
- Trove parameter normalisation (`_normalizeTroveCreation`, `_normalizeTroveAdjustment`) and the wrappers `create`, `recreate`, `adjust`, `adjustTo`.
- PowTolerance.PowWithinTolerance: is about the exact power of the Decimal; how a floating-point base is converted to one is not part of this model.
- FeeRates.BaseRateAccuracy: for undecayed rates up to 1.0, as larger ones scale the error of `pow`; the range and the monotonicity hold for all.
- The store's extra state, logging, the `onLoaded` callback, and the parameters handed to listeners, which listeners may not change.
- Listeners that throw, which would end a round early, and listeners that stop the store.
- `_doStart` and fetching state from the blockchain; timers are events of a run rather than real time.
- In the redemption loop: floating point (exact reals are used), random draws, prices, `sort_values` itself (any order it may leave equal ratios in is covered) and pandas indexing.
- Redemption.RiskiestFirst: orders by the recorded ratio, which is what the table is sorted by, and not by the true one.
- In the gas histogram: transactions and receipts other than their status, gas used and gas limit; gas amounts beyond JavaScript's safe integers.
- BNConverter.MakeBNScales: for text of digits and points only; left out are signs, exponents and the other notations decimal.js reads; decimal.js and bn.js are exact numbers.
- BNConverter.AgreesWithDecimal: the same.
- BNConverter.MakeDecimalInverse: about printing with `toFixed`, as the contracts' tests do; the `toString` of a decimal.js object uses exponents for small and large numbers, which `makeBN` does not read.
- PoolCover.RunCoversWhileErrorsKept: over runs the condition is sufficient; it is also necessary for single offsets that round nothing off (`OffsetKeepsCoverOnlyThen`), while roundings in the depositors' disfavour can make up for an error that falls.
- In the Stability Pool: LQTY gains with their sum G, front ends and their stakes, access control, token transfers and overflow; whatever else makes a transaction fail only removes steps from a run.
- The other Solidity contracts, deployment, front end, subgraph and other drivers.
