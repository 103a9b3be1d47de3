/** Small wrapper type used across the model. */
module Wrappers {

  /** A value that may be missing: an absent request header or form field. */
  datatype Option<+T> = None | Some(value: T)
}
