/** Failure-compatible wrappers shared by every module of the model. */
module Wrappers {

  /** A value that may be absent; the source's `undefined`. */
  datatype Option<+T> = None | Some(value: T)

  /** The outcome of an operation that can throw: its value, or the thrown error. */
  datatype Result<+T, +E> = Success(value: T) | Failure(error: E)

  /** The JavaScript errors the source throws, with their messages. */
  datatype Thrown = TypeError(message: string) | RangeError(message: string)
}
