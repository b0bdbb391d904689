/** Failure-carrying datatypes shared by the validator's stages. */
module Wrappers {

  /** A value that may be absent: a file that does not exist, a marker never found. */
  datatype Option<+T> = None | Some(value: T)

  /** The outcome of a stage that either produces a value or stops the run with an error. */
  datatype Result<+R, +E> = Success(value: R) | Failure(error: E)
}
