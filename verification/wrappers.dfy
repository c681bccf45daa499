/** Failure-carrying datatypes shared by the modules of this model. */
module Wrappers {

  /** A value that may be absent: the model's stand-in for a C# or TypeScript null. */
  datatype Option<+T> = None | Some(value: T)

  /** A value or the error that replaced it: the model's stand-in for a thrown exception. */
  datatype Result<+T, +E> = Ok(value: T) | Err(error: E)
}
