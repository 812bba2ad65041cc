/** The optional value returned where the source returns a nullable one. */
module Wrappers {
  datatype Option<+T> = None | Some(value: T)
}
