/** Optional values, for the `null` / `None` results of the source. */
module Wrappers {
  datatype Option<T> = None | Some(value: T)
}
