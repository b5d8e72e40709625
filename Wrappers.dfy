/** The Option type used for the shell's nullable string slots. */
module Wrappers {

  datatype Option<+T> = None | Some(value: T)
}
