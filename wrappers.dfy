/** The optional value used for nullable columns and parse results. */
module Wrappers {
  datatype Option<+T> = None | Some(value: T)
}
