/** Option and Result: Java's nullable references and thrown exceptions, as values. */
module Wrappers {

  /** A Java reference that may be null. */
  datatype Option<+T> = None | Some(value: T)

  /** A computation that either returns normally or throws. */
  datatype Result<+R, +E> = Ok(value: R) | Err(error: E)
}
