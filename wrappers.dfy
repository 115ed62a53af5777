/** Option and Result, shared by both components: Option stands for a C#
    `null` or a Python `None`, Result for a value or a raised error. */
module Wrappers {

  datatype Option<+T> = None | Some(value: T)

  datatype Result<+R, +E> = Success(value: R) | Failure(error: E)
}
