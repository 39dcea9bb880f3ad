/** A value that may be missing: a dictionary lookup that finds nothing, or a
    KeyError the caller turns into an outcome. */
module Wrappers {
  datatype Option<T> = None | Some(value: T)
}
