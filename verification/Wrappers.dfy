// A value that may be missing: Go's value-and-ok pairs and nil results.
module Wrappers {
  datatype Option<+T> = None | Some(value: T)
}
