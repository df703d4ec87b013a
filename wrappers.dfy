/** Option and Result values standing in for Python's None and for the
    error strings the tracker shows instead of raising. */
module Wrappers {

  datatype Option<+T> = None | Some(value: T)

  datatype Result<+T, +E> = Ok(value: T) | Err(error: E)
}
