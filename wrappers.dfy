/** Option and Result, the two failure-carrying shapes used throughout the model. */
module Wrappers {

  /** A value that may be missing: JavaScript's `undefined` / `null` return. */
  datatype Option<+T> = None | Some(value: T)

  /** The outcome of an operation that may throw: `Err` carries the thrown error. */
  datatype Result<+R, +E> = Ok(value: R) | Err(error: E)
}
