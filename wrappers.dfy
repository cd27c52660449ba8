/** Optional values (Java's nullable references) and results that may fail. */
module Wrappers {

  /** A Java reference that may be null. */
  datatype Option<+T> = None | Some(value: T)

  /** A computation that either yields a value or throws. */
  datatype Result<+T, +E> = Ok(value: T) | Err(error: E)
}
