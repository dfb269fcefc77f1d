/** The option type used wherever the program has an optional pointer or handle. */
module Wrappers {
  datatype Option<+T> = None | Some(value: T)
}
