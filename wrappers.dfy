/** Option and Result: the error paths of the solver's functions, which the
    Python source signals with `None` or with raised exceptions. */
module Wrappers {

  datatype Option<+T> = None | Some(value: T)

  datatype Result<+T, +E> = Success(value: T) | Failure(error: E)
}
