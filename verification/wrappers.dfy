/** Failure-carrying result types shared by the page modules. */
module Wrappers {

  /** An optional value, used for the highlighted index of a selection list. */
  datatype Option<+T> = None | Some(value: T)

  /** The outcome of an operation that may abort instead of producing a value. */
  datatype Result<+T, +E> = Success(value: T) | Failure(error: E)
}
