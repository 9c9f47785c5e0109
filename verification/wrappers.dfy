/** Option and Result, the two failure-carrying shapes the model uses in place of
    JavaScript's `null`/`undefined` and thrown exceptions. */
module Wrappers {

  /** A value that may be absent (`null` or `undefined` in the source). */
  datatype Option<+T> = None | Some(value: T)

  /** The outcome of an operation that may throw: `Err` carries what was thrown. */
  datatype Result<+T, +E> = Ok(value: T) | Err(error: E)
}
