/** The optional value that the program's `Option` results are modelled by. */
module Wrappers {
  datatype Option<+T> = None | Some(value: T)
}
