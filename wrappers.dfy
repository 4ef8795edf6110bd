/** Optional values and error results, standing for JavaScript's `null` and for
    thrown exceptions that a caller catches. */
module Wrappers {

  datatype Option<+T> = None | Some(value: T)

  datatype Result<+T, +E> = Ok(value: T) | Err(error: E)
}
