/** The optional value used wherever the program may produce nothing (Python's `None`). */
module Wrappers {

  datatype Option<+T> = None | Some(value: T)

}
