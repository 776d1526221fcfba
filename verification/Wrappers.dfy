/** Optional values (nullable columns) and results of operations the source may refuse. */
module Wrappers {
  datatype Option<+T> = None | Some(value: T)

  datatype Result<+T, +E> = Ok(value: T) | Denied(error: E)
}
