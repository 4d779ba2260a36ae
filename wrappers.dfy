/** Optional values: a Go nil pointer or an absent command-line argument. */
module Wrappers {
  datatype Option<+T> = None | Some(value: T)
}
