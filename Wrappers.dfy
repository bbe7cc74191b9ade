/** The optional value used for the nullable fields of the journey model. */
module Wrappers {
  datatype Option<+T> = None | Some(value: T)
}
