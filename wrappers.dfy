/** Option and Result: the "default(T)" returns and the exceptions of the source, as values. */
module Wrappers {
  datatype Option<T> = None | Some(value: T)

  /** `Failure` carries the name of the .NET exception the source would throw. */
  datatype Result<T> = Success(value: T) | Failure(error: string)
}
