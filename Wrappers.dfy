/** Option and Result values, standing for JavaScript's `null`/`undefined`
    alternatives and for a settled promise (resolved value or thrown error). */
module Wrappers {

  datatype Option<+T> = None | Some(value: T)

  datatype Result<+T, +E> = Ok(value: T) | Err(error: E)
}
