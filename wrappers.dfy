/** Failure-carrying return values used by the request handlers of the ledger. */
module Wrappers {

  datatype Option<+T> = None | Some(value: T)

  /** A handler that produces a value or stops with an error message. */
  datatype Result<+R, +E> = Success(value: R) | Failure(error: E)

  /** A handler that only succeeds (redirects) or stops with an error message. */
  datatype Outcome<+E> = Pass | Fail(error: E)
}
