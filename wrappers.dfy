/** The optional-value type used for the parts of the system that can fail. */
module Wrappers {

  datatype Option<+T> = None | Some(value: T)
}
