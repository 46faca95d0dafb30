/** A value that may be missing: an absent map entry, an error return. */
module Wrappers {
  datatype Option<T> = None | Some(value: T)
}
