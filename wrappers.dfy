/** The optional value a lookup may fail to produce (Python's `None`). */
module Wrappers {
  datatype Option<+T> = None | Some(value: T)
}
