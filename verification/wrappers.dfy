/** Optional values and results with an error path. */
module Wrappers {

  /** A value that may be absent: JavaScript's `undefined`, `null` or `NaN`
      where the scripts test for one of them. */
  datatype Option<+T> = None | Some(value: T)

  /** The outcome of an operation that can fail. */
  datatype Result<+T, +E> = Ok(value: T) | Err(error: E)
}
