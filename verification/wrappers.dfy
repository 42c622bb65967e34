/** Optional values: the source's `std::optional` and its null peer pointers. */
module Wrappers {

  datatype Option<+T> = None | Some(value: T)
}
