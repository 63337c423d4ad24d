/** The optional value used for operations that can fail (a Python exception in the source). */
module Wrappers {

  datatype Option<+T> = None | Some(value: T)
}
