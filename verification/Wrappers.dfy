// A value that may be absent: a null pointer, an empty optional, a failed
// lookup.
module Wrappers {
  datatype Option<+T> = None | Some(value: T)
}
