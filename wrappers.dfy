/** Option and Result values, standing for JavaScript's `null`/`undefined`
    and for a rejected promise. */
module Wrappers {

  datatype Option<+T> = None | Some(value: T)

  datatype Result<+R, +E> = Success(value: R) | Failure(error: E)
}
