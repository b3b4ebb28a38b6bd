/** The optional value used wherever the source has `null`. */
module Wrappers {
  datatype Option<T> = None | Some(value: T)
}
