/** Option, for the shape fields that stay empty until recognition. */
module Wrappers {
  datatype Option<+T> = None | Some(value: T)
}
