/** The error codes of include/mhda/error.hpp, and results that carry one. */
module Errors {
  import opened Wrappers

  datatype ErrorCode =
    | InvalidUrn
    | InvalidNss
    | MissingNetworkType
    | InvalidNetworkType
    | InvalidCoinType
    | MissingChainId
    | InvalidDerivationType
    | InvalidDerivationPath
    | InvalidAlgorithm
    | InvalidFormat
    | Incompatible
    | UninitializedAddress
    | InvalidValue
    | CoinTypeInChainKey
    | InvalidChainKey
    | InvalidArgument // std::invalid_argument, thrown for a SLIP-10 path built from five fields

  /** A value, or the code of the exception thrown instead. */
  datatype Result<+T> = Ok(value: T) | Err(error: ErrorCode) {
    predicate IsFailure() {
      Err?
    }

    function PropagateFailure<U>(): Result<U>
      requires Err?
    {
      Err(error)
    }

    function Extract(): T
      requires Ok?
    {
      value
    }
  }

  /** The state after an attempt: the result on success, the old state on failure. */
  function Keep<T>(before: T, r: Result<T>): (T, Option<ErrorCode>) {
    match r case Ok(v) => (v, None) case Err(e) => (before, Some(e))
  }
}
