/** Optional values: a lookup that may find nothing, a field that may be unset. */
module Wrappers {

  datatype Option<+T> = None | Some(value: T)
}
