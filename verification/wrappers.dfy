/** Failure-carrying values used throughout the vault model. */
module Wrappers {

  /** A value that may be absent: a missing key, a failed decryption, a
      password source that raised. */
  datatype Option<+T> = None | Some(value: T)

  /** The outcome of an operation that either produces a value or reports
      why it did not. */
  datatype Result<+R, +E> = Success(value: R) | Failure(error: E)
}
