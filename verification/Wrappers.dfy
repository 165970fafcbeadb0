/** Shared by the step systems. */
module Wrappers {
  datatype Option<T> = None | Some(value: T)
}
