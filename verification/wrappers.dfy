/** The optional value used wherever the source has a nullable reference or a NaN sentinel. */
module Wrappers {

  datatype Option<+T> = None | Some(value: T)
}
