/** Option and Result values standing in for JavaScript's `null`/`undefined` and thrown errors. */
module Wrappers {

  /** A value that may be absent: `null` or `undefined` in the source. */
  datatype Option<+T> = None | Some(value: T)

  /** The outcome of an operation that may throw: `Ok` on return, `Err` on throw. */
  datatype Result<+T, +E> = Ok(value: T) | Err(error: E)
}
