/** The optional-value type used throughout the model for lookups that can fail. */
module Wrappers {

  datatype Option<+T> = None | Some(value: T)
}
