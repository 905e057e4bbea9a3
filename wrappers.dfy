/** Optional values: Go's `nil` for an interface or pointer result. */
module Wrappers {

  datatype Option<+T> = None | Some(value: T)
}
