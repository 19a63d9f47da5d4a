/** An optional value: the source's `T | undefined` and `T | null`. */
module Wrappers {
  datatype Option<+T> = None | Some(value: T)
}
