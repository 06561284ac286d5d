/** Optional values and results shared by the other modules. */
module Wrappers {

  datatype Option<T> = None | Some(value: T)

  /** A computation that either yields a value or raises one of the source's
      runtime errors. */
  datatype Result<T, E> = Ok(value: T) | Err(error: E)
}
