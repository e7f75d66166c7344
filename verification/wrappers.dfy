/** Failure-carrying result types shared by the other modules. */
module Wrappers {

  /** A value that may be absent (a parse that did not succeed). */
  datatype Option<+T> = None | Some(value: T)

  /** Either the value a run produced or the error that stopped it. */
  datatype Result<+R, +E> = Success(value: R) | Failure(error: E)
}
