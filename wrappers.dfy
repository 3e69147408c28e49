/** Option and Result, used wherever the source returns `undefined` or a list of problems. */
module Wrappers {

  datatype Option<+T> = None | Some(value: T)

  datatype Result<+R, +E> = Success(value: R) | Failure(error: E)
}
