/** The optional value used where the source has a sentinel (NaN) or a panic. */
module Wrappers {
  datatype Option<+T> = None | Some(value: T)
}
