/** Failure-compatible wrappers shared by every handler of the ledger. */
module Wrappers {

  /** A value that may be absent, as a nullable document field. */
  datatype Option<+T> = None | Some(value: T)

  /** The outcome of a handler: a value, or the error the API raises. */
  datatype Result<+R, +E> = Success(value: R) | Failure(error: E) {

    predicate IsFailure() {
      Failure?
    }

    function PropagateFailure<U>(): Result<U, E>
      requires Failure?
    {
      Failure(error)
    }

    function Extract(): R
      requires Success?
    {
      value
    }
  }
}
