/** The optional value used wherever the interpreter tests a lookup result
    for `undefined`. */
module Wrappers {

  datatype Option<+T> = None | Some(value: T)
}
