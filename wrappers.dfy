/** The Option type used for fallible steps: a file that may not open, a parse that may fail. */
module Wrappers {
  datatype Option<+T> = None | Some(value: T)
}
