/** The optional value shared by every module: JavaScript's `null`/`undefined` or a value. */
module Wrappers {
  datatype Option<T> = None | Some(value: T)
}
