/** The stock option type used throughout for pointers that may be null. */
module Wrappers {
  datatype Option<+T> = None | Some(value: T)
}
