/** Optional values, for lookups and reads that may find nothing or fail. */
module Wrappers {
  datatype Option<+T> = None | Some(value: T)
}
