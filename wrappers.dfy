/** The optional-value datatype used for results that can fail. */
module Wrappers {

  datatype Option<+T> = None | Some(value: T)
}
