/** A value that may be missing: a null pointer, a failed call, a weak pointer that cannot be locked. */
module Wrappers {

  datatype Option<+T> = None | Some(value: T)
}
