/** The option type shared by the other modules, and the terminator of C strings. */
module Wrappers {

  datatype Option<+T> = None | Some(value: T)

  const NUL: char := '\0'
}
