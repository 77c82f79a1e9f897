/** The optional value used throughout: a nullable column, a missing file, a missing map entry. */
module Wrappers {
  datatype Option<+T> = None | Some(value: T)
}
