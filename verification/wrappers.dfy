/** Failure-carrying values: a nullable value and an operation outcome. */
module Wrappers {

  /** A value that may be absent; stands for a C# nullable (`DateTime?`, `string?`). */
  datatype Option<+T> = None | Some(value: T)

  /** The outcome of a gateway operation: the committed value, or the exception it throws. */
  datatype Result<+T, +E> = Success(value: T) | Failure(error: E)
}
