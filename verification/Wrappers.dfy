/** A value that may be missing: a null pointer or a failed lookup. */
module Wrappers {
  datatype Option<+T> = None | Some(value: T)
}
