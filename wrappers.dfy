/** Option and Result values, and the (value, error) pair that Go functions return. */
module Wrappers {

  datatype Option<+T> = None | Some(value: T)

  datatype Result<+T, +E> = Ok(value: T) | Err(error: E)

  /** A Go `(value, error)` return: `err` is `None` exactly when the call reports no error. */
  datatype GoResult<+T, +E> = GoResult(value: T, err: Option<E>)
}
