/** The optional value used throughout the model for PHP's `null` / "not there". */
module Wrappers {
  datatype Option<T> = None | Some(value: T)
}
