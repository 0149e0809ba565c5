// An optional value, standing in for the nullable references of the game code.
module Wrappers {
  datatype Option<+T> = None | Some(value: T)
}
