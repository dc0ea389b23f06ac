/** Optional values and results shared by the copy engine: an optional
    value (a nullable field) and a result that is either a value or an error. */
module Wrappers {

  /** A nullable value: `None` models Ruby's `nil`. */
  datatype Option<+T> = None | Some(value: T)

  /** The outcome of an operation that may be refused. */
  datatype Result<+T, +E> = Ok(value: T) | Err(error: E)
}
