/** Failure-compatible wrappers used across the model: `Option` stands for a C# null
    reference, `Result` for a call that may end in an exception. */
module Wrappers {

  datatype Option<+T> = None | Some(value: T)

  datatype Result<+R, +E> = Success(value: R) | Failure(error: E)
}
