/** The optional value returned by the collections' `get` operations. */
module Wrappers {

  datatype Option<+T> = None | Some(value: T)
}
