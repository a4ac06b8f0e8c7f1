/** Option and Result types shared by the whole model: `Option` stands for
    JavaScript's `null`/`undefined`-or-value, `Result` for an operation that may
    throw. */
module Wrappers {

  datatype Option<+T> = None | Some(value: T)

  datatype Result<+R, +E> = Success(value: R) | Failure(error: E)
}
