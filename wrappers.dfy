/** Optional values: an absent row, an anonymous visitor. */
module Wrappers {
  datatype Option<+T> = None | Some(value: T)
}
