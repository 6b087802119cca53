/** The optional value used for Python's None and for operations that raise. */
module Wrappers {

  datatype Option<+T> = None | Some(value: T)
}
