/** A pointer that may be null, or a value that may be missing. */
module Wrappers {

  datatype Option<+T> = None | Some(value: T)
}
