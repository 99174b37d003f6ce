/** Option and Result values used where the source returns `undefined` or throws. */
module Wrappers {

  datatype Option<+T> = None | Some(value: T)

  /** A computation that either produced a value or failed with an error message. */
  datatype Result<+R> = Success(value: R) | Failure(error: string)
}
