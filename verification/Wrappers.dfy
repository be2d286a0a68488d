module Wrappers {

  /** A value that may be missing: a null, an unset optional, an npos, or a raised error. */
  datatype Option<T> = None | Some(value: T)
}
