/** A value that may be missing: a slot whose pointer is NULL, a stream that has ended. */
module Wrappers {

  datatype Option<T> = None | Some(value: T)
}
