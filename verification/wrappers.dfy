/** Optional values and results, used for JavaScript's `undefined` and for thrown errors. */
module Wrappers {

  /** An optional value. `None` stands for JavaScript's `undefined`. */
  datatype Option<+T> = None | Some(value: T)

  /** The outcome of a handler: a new value, or the error it throws. */
  datatype Result<+T, +E> = Ok(value: T) | Err(error: E)
}
