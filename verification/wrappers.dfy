/** Optional values, standing for a null pointer or a missing map entry in the system modelled. */
module Wrappers {
  datatype Option<T> = None | Some(value: T)
}
