// The optional value used for `touchStartX` (null or a number) and for
// the results of the text parsers.
module Wrappers {
  datatype Option<+T> = None | Some(value: T)
}
