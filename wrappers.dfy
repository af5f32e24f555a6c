/** The optional value used for the nullable type pointers of the source. */
module Wrappers {
  datatype Option<+T> = None | Some(value: T)
}
