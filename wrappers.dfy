/** The optional value used for "None or a value" results throughout the model. */
module Wrappers {

  datatype Option<+T> = None | Some(value: T)
}
