/** Optional values and results with an error, used in place of Java's null/Optional and exceptions. */
module Wrappers {

  datatype Option<+T> = None | Some(value: T)

  /** The outcome of an operation that the source either completes or aborts by throwing. */
  datatype Result<+T, +E> = Ok(value: T) | Err(error: E)
}
