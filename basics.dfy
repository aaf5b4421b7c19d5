/** Small shared datatypes. */
module Basics {

  /** An optional value: the model's stand-in for Python's `None`. */
  datatype Option<+T> = None | Some(value: T)
}
