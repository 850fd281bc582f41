/** Optional values: `None` plays the part of Go's `nil` handler and of a
    missing result. */
module Wrappers {

  datatype Option<+T> = None | Some(value: T)
}
