/** Failure-compatible result and option types shared by every module of the
    model. Each kind of check that raises `ValueError` (and the
    `ZeroDivisionError` paths) is one constructor of `Error`. Checks of the
    same kind share one: `LengthMismatch` stands for both length messages of
    src/fm_toolkit/curves.py, `TooFewPillars` for both curves' pillar-count
    messages, and `NonPositiveNotional` for the swap's `notional` and the FX
    pricers' `notional_base` messages. */
module Results {

  /** Python's `None` default arguments. */
  datatype Option<+T> = None | Some(value: T)

  /** One constructor per kind of failed check. */
  datatype Error =
    // tenor parsing
    | EmptyTenor
    | UnsupportedTenorFormat
    | NonPositiveTenorQuantity
    | UnsupportedTenorUnit
    // curve construction
    | LengthMismatch
    | TooFewPillars
    | NonPositiveTime
    | UnsortedTimes
    | DuplicateTimes
    | NoTenors
    // curve lookups
    | NonPositiveLookup
    // pricing inputs
    | MissingDomesticRate
    | MissingForeignRate
    | NonPositiveMaturity
    | NonPositiveSpot
    | NonPositiveNotional
    | NonPositiveStrike
    | NegativeFixedRate
    | NonPositiveFrequency
    | NonIntegerPeriods
    | DivisionByZero
    // currency pairs
    | EmptyPair
    | MalformedPair
    | BadCurrencyCode

  /** Either a value or the error the library would raise. */
  datatype Result<+T> = Ok(value: T) | Err(error: Error) {
    predicate IsFailure() { Err? }

    function PropagateFailure<U>(): Result<U>
      requires Err?
    {
      Err(error)
    }

    function Extract(): T
      requires Ok?
    {
      value
    }
  }
}
