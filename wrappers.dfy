/** The optional value used throughout the model: JavaScript's `undefined`
    becomes None. */
module Wrappers {

  datatype Option<+T> = None | Some(value: T)
}
