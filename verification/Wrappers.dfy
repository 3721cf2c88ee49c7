/** An optional value: what a stream with nothing to read yields. */
module Wrappers {
  datatype Option<+T> = None | Some(value: T)
}
