/** Results that may be absent or an error. */
module Wrappers {
  datatype Option<T> = Some(value: T) | None

  datatype Result<T, E> = Ok(value: T) | Err(error: E)
}
