/** The optional-value datatype used for JavaScript's `null` and for "no value". */
module Wrappers {

  datatype Option<+T> = None | Some(value: T)
}
