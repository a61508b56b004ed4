/** The optional value used where the program has a nil pointer, a zero value that means
    "absent", or a comma-ok map read. */
module Wrappers {
  datatype Option<+T> = None | Some(value: T)
}
