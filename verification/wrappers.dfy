/** Optional values and results with an error, used where the driver either
    has no value (Python's None) or raises before doing any work. */
module Wrappers {

  datatype Option<+T> = None | Some(value: T)

  datatype Result<+T, +E> = Ok(value: T) | Err(error: E)
}
