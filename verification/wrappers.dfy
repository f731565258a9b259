/** Optional values, standing for `std::optional` and for nullable owning pointers. */
module Wrappers {
  datatype Option<+T> = None | Some(value: T)
}
