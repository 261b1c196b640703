/** Option, used where the modelled Java code can return "nothing" or throw. */
module Wrappers {
  datatype Option<+T> = None | Some(value: T)
}
