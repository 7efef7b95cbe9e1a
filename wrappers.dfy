/** The usual optional-value datatype, used for lookups and for operations that can raise. */
module Wrappers {
  datatype Option<+T> = None | Some(value: T)
}
