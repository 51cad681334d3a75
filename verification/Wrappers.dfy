module Wrappers {
  /** A value that may be absent: null, undefined, a missing row or a failed read. */
  datatype Option<+T> = None | Some(value: T)
}
