/** The optional value used for lookups and for decoding that may fail. */
module Wrappers {
  datatype Option<+T> = None | Some(value: T)
}
