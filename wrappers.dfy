/** The optional value used where JavaScript gives back `undefined` or `null`. */
module Wrappers {

  datatype Option<+T> = None | Some(value: T)
}
