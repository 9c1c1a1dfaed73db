/** Option and Result, used for lookups that can miss and for the node's error paths. */
module Wrappers {

  datatype Option<+T> = None | Some(value: T)

  /** A handler either returns its result record or raises an error. */
  datatype Result<+T, +E> = Success(value: T) | Failure(error: E)
}
