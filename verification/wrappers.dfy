/** Optional values and results shared by the other modules. */
module Wrappers {

  /** An optional value: a command-line flag that was not given, or was given without a value, is None. */
  datatype Option<+T> = None | Some(value: T)

  /** The value of a step that may raise: Failure carries the reason the script stops. */
  datatype Result<+R, +E> = Success(value: R) | Failure(error: E)
}
