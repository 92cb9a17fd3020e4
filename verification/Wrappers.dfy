// A value that may be missing, for null pointers and failing functions.

module Wrappers {
  datatype Option<+T> = None | Some(value: T)
}
