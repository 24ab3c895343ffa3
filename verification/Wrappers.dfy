/** The value types shared by the whole model. */
module Wrappers {
  datatype Option<+T> = None | Some(value: T)
}
