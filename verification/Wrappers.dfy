module Wrappers {
  datatype Option<+T> = None | Some(value: T)

  /** `Error` stands for the exception a function throws. */
  datatype Result<+T, +E> = Ok(value: T) | Error(error: E)
}
