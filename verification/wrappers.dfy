/** Failure-carrying values shared by every module of the model. */
module Wrappers {

  /** An optional value: `None` stands for "absent" (C++ `npos`, a null list head). */
  datatype Option<+T> = None | Some(value: T)

  /** Either a value or the error the C++ code would have thrown. */
  datatype Result<+T, +E> = Ok(value: T) | Err(error: E)
}
