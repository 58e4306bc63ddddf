/** Optional values: the result of a read that may run out of bytes. */
module Wrappers {
  datatype Option<+T> = None | Some(value: T)
}
