/** Optional values: a nullable column, a lookup that may find nothing. */
module Wrappers {
  datatype Option<+T> = None | Some(value: T)
}
