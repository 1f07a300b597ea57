/** A value that may be missing: JavaScript's null or undefined where the source returns one. */
module Wrappers {

  datatype Option<+T> = None | Some(value: T)
}
