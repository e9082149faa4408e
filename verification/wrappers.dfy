/** The optional-value datatype used across the model. */
module Wrappers {

  /** A value that may be absent. */
  datatype Option<T> = None | Some(value: T)
}
