/** Outcomes of operations that the source lets throw, and values that may be undefined. */
module Wrappers {

  datatype Option<+T> = None | Some(value: T)

  /** Why an operation of the source throws. */
  datatype Error =
    | NegativeDecimal       // "negatives not supported by Decimal"
    | BadDecimalFormat      // "bad decimal format"
    | NegativePrecision     // "precision must not be negative"
    | AssertionFailed       // a failed `assert`
    | TooManyDecimalPlaces  // "MakeBN: argument must have <= ... decimal places"
    | NonNumericInput       // "MakeBN: input must be number ..."
    | DebtBelowReserve      // "netDebt should not be used when debt < ..."
    | TroveExists           // "Can't create onto existing Trove"
    | TroveMissing          // "Can't close empty Trove"
    | IndexError            // indexing an exhausted table
    | TransactionFailed     // EthersTransactionFailedError
    | SubtractionOverflow   // SafeMath's `sub`
    | ZeroAmount            // "Amount must be non-zero"
    | NoDeposit             // "User must have a non-zero deposit"

  datatype Result<+T> = Ok(value: T) | Err(error: Error)
}
