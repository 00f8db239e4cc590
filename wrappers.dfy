/** The optional value every parser of the model returns: Some(v) for a value, None for Go's non-nil error. */
module Wrappers {

  datatype Option<+T> = None | Some(value: T)
}
