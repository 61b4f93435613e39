/** A value that may be missing: the kernel's null pointers and failed look-ups. */
module Wrappers {
  datatype Option<+T> = None | Some(value: T)
}
