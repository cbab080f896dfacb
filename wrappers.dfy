/** The optional value used for Python's "raises ValueError" outcomes. */
module Wrappers {

  datatype Option<+T> = None | Some(value: T)
}
