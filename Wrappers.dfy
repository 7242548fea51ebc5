/** Failure-carrying result types used throughout the model in place of .NET exceptions. */
module Wrappers {

  /** A value that may be missing; stands for a .NET null reference or an empty Nullable<T>. */
  datatype Option<+T> = None | Some(value: T)

  /** Either success or an error; stands for a void call that may throw. */
  datatype Outcome<+E> = Pass | Fail(error: E)

  /** Either a value or an error; stands for a value-returning call that may throw. */
  datatype Result<+R, +E> = Success(value: R) | Failure(error: E)
}
