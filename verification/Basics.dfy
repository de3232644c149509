/** Option and Result, shared by every module of the model:
    - Option<T> stands for Python's `X | None`;
    - Result<T, E> stands for a call that either returns or raises. */
module Basics {

  datatype Option<+T> = None | Some(value: T)

  datatype Result<+T, +E> = Success(value: T) | Failure(error: E)
}
