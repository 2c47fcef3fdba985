/** The one wrapper the rest of the project shares. */
module Wrappers {
  datatype Option<+T> = None | Some(value: T)
}
