/** Optional values, standing for nullable C pointers. */
module Wrappers {
  datatype Option<+T> = None | Some(value: T)
}
