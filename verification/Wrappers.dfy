/** The optional value used throughout the model where the source returns `(value, false)` or nil. */
module Wrappers {
  datatype Option<+T> = None | Some(value: T)
}
