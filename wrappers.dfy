/** Result types shared by the model's modules. */
module Wrappers {

  /** A value that may be absent: Java's nullable references and java.util.Optional. */
  datatype Option<+T> = None | Some(value: T)

  /** The value of an operation, or the exception it throws. */
  datatype Result<+R, +E> = Success(value: R) | Failure(error: E)

  /** Normal completion of a void operation, or the exception it throws. */
  datatype Outcome<+E> = Pass | Fail(error: E)
}
