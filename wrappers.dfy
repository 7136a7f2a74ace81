/** Optional values, used for cache lookups and optional document fields. */
module Wrappers {

  datatype Option<+T> = None | Some(value: T)
}
