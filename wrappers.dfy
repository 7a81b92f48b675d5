/** Small failure-compatible wrappers shared by the other modules. */
module Wrappers {

  /** A value that may be absent (a dictionary key that is not set). */
  datatype Option<+T> = None | Some(value: T)

  /** The outcome of a call that can raise a Python exception. */
  datatype Result<+T> = Success(value: T) | Failure(error: string)
}
