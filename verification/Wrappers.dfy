/** A value that may be missing (Python's `None`). */
module Wrappers {
  datatype Option<T> = None | Some(value: T)
}
