/** The optional-value datatype used for parsed user input. */
module Wrappers {
  datatype Option<+T> = None | Some(value: T)
}
