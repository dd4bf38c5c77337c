/** The optional value used for lookups that may find nothing and for the session. */
module Wrappers {
  datatype Option<+T> = None | Some(value: T)
}
