/** The optional value used where the Java code returns null or an empty Optional. */
module Wrappers {

  datatype Option<+T> = None | Some(value: T)
}
