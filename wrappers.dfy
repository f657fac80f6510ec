/** Optional values: a display slot that shows "--" until a value is written. */
module Wrappers {
  datatype Option<+T> = None | Some(value: T)
}
