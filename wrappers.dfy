/** Option and Result, used for the lookups and the exceptions of the source. */
module Wrappers {
  datatype Option<T> = None | Some(value: T)

  /** A Python call either returns a value or raises; `Err` carries what was raised. */
  datatype Result<T, E> = Ok(value: T) | Err(error: E)
}
