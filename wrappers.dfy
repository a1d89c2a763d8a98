/** Optional values, used for Python's `None` and for a pattern that does not match. */
module Wrappers {
  datatype Option<+T> = None | Some(value: T)
}
