/** Optional values, for fields and lookups the source may leave undefined. */
module Wrappers {
  datatype Option<+T> = None | Some(value: T)
}
