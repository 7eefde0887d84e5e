/** The optional value used for every nullable column and for lookups that may fail. */
module Wrappers {
  datatype Option<+T> = None | Some(value: T)
}
