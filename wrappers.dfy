/** Optional values and outcomes that may have failed, for operations that can throw. */
module Wrappers {
  datatype Option<T> = None | Some(value: T)

  /** The outcome of a call that returns a value or throws an error with a message. */
  datatype Result<T> = Success(value: T) | Failure(error: string)
}
