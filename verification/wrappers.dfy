/** Optional values and results with an error, used for the source's null references and exceptions. */
module Wrappers {

  /** A value that may be absent (a C# null or an empty Nullable<T>). */
  datatype Option<+T> = None | Some(value: T)

  /** The outcome of a computation that may throw: a value, or the reason it failed. */
  datatype Result<+T, +E> = Ok(value: T) | Err(error: E)
}
