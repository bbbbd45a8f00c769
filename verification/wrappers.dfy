/** Option and Result, used for optional values and for the construction
    errors that the original reports by panicking. */
module Wrappers {

  datatype Option<+T> = None | Some(value: T)

  datatype Result<+R, +E> = Ok(value: R) | Err(error: E)
}
