/** Option and Result, the two failure-carrying shapes the model uses in place of
    Go's `(value, ok)` and `(value, error)` returns. */
module Wrappers {

  datatype Option<+T> = None | Some(value: T)

  /** `Failure(error)` carries the text that Go's `err.Error()` would print. */
  datatype Result<+T> = Success(value: T) | Failure(error: string)
}
