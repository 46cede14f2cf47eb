/** The optional value used wherever the Java code returns or receives something that may be absent. */
module Wrappers {

  datatype Option<+T> = None | Some(value: T)

}
