/** The optional value shared by every module of the model: Python's `None`, or a value. */
module Wrappers {
  datatype Option<T> = None | Some(value: T)
}
