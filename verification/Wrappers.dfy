/** Option, the model of a lookup that can miss and of a call that can return false. */
module Wrappers {
  datatype Option<+T> = None | Some(value: T)
}
