/** Optional values and results with an error, used wherever the Python code
    returns `None` or raises an exception instead of returning a value. */
module Wrappers {

  datatype Option<+T> = None | Some(value: T)

  datatype Result<+T, +E> = Success(value: T) | Failure(error: E)
}
