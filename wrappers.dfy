/** Optional values, standing for `std::optional` and for the "found / not found"
    pairs that the build tool returns from its lookups. */
module Wrappers {

  datatype Option<+T> = None | Some(value: T)

}
