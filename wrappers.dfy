/** Option and Result, used for regex matches that may be absent and for the
    type mapper's thrown error. */
module Wrappers {

  datatype Option<+T> = None | Some(value: T)

  datatype Result<+R, +E> = Ok(value: R) | Err(error: E)
}
