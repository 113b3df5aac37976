/** The optional-value datatype used throughout the model (a JavaScript value that may be `undefined`). */
module Wrappers {

  datatype Option<+T> = None | Some(value: T)
}
