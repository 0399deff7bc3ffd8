/** The two ways an operation of the library can end without a value: absent, or thrown. */
module Outcomes {

  datatype Option<+T> = None | Some(value: T)

  /** Why the library would throw. */
  datatype Failure =
    | NegativeDecimal
    | BadDecimalFormat
    | NegativePrecision
    | BadExponent
    | DebtBelowReserve
    | OntoExistingTrove
    | NothingToClose
    | BadParameters
    | UnexpectedChange
    | AssertionFailed
    | AddressRequired
    | BadListing

  datatype Result<+T> = Ok(value: T) | Err(failure: Failure) {
    predicate IsFailure() {
      Err?
    }

    function PropagateFailure<U>(): Result<U>
      requires Err?
    {
      Err(failure)
    }

    function Extract(): T
      requires Ok?
    {
      value
    }
  }
}
