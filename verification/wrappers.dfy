/** The optional value used for "no current question" and for failed pattern matches. */
module Wrappers {
  datatype Option<+T> = None | Some(value: T)
}
