/** The optional value used where the Go code returns `nil` for "no result". */
module Wrappers {
  datatype Option<+T> = None | Some(value: T)
}
