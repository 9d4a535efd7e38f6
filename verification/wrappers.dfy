/** Optional values: the Go code's "" / (value, ok) conventions. */
module Wrappers {
  datatype Option<+T> = None | Some(value: T)
}
