/** The optional value used for the debug row limit and for reading a table name back. */
module Wrappers {
  datatype Option<+T> = None | Some(value: T)
}
