/** A value, or none: the result of what may fail without an error to tell of. */
module Wrappers {
  datatype Option<T> = None | Some(value: T)
}
