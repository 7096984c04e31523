/** Option and Result: `undefined`-or-value and value-or-thrown-error in the model. */
module Wrappers {

  datatype Option<+T> = None | Some(value: T)

  datatype Result<+T, +E> = Success(value: T) | Failure(error: E)
}
