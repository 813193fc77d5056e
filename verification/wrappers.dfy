/** The optional value shared by the byte-level string model and the frame decoder. */
module Wrappers {

  datatype Option<T> = None | Some(value: T)
}
