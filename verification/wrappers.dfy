/** The optional value used where the source returns null or throws on absent data. */
module Wrappers {
  datatype Option<+T> = None | Some(value: T)
}
