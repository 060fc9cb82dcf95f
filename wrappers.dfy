/** Failure-compatible wrappers used by the posts router model: an optional value
    (a JavaScript value that may be `null`) and a result that is either a value or
    the error a procedure throws. */
module Wrappers {

  datatype Option<+T> = None | Some(value: T)

  datatype Result<+T, +E> = Ok(value: T) | Err(error: E)
}
