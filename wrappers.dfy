/** Option and Result: the model's stand-ins for Python's `{}`/`None` sentinels and raised exceptions. */
module Wrappers {

  datatype Option<+T> = None | Some(value: T)

  datatype Result<+R, +E> = Success(value: R) | Failure(error: E)
}
