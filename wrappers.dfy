/** Failure-carrying wrappers used for the plugin's nullable values and thrown exceptions. */
module Wrappers {

  /** A Java reference that may be null. */
  datatype Option<T> = None | Some(value: T)

  /** A computed value, or the exception that computing it throws. */
  datatype Result<T, E> = Ok(value: T) | Err(error: E)

  /** A void operation that either completes or throws. */
  datatype Outcome<E> = Pass | Fail(error: E)
}
