/** Optional values, for the places where the page may give nothing. */
module Wrappers {

  datatype Option<+T> = None | Some(value: T)
}
