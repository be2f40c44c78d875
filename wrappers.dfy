/** The optional value used for "no record found" and for a parse that yields NaN. */
module Wrappers {
  datatype Option<+T> = None | Some(value: T)
}
