/** Optional values, used by every model for lookups that may find nothing. */
module Options {
  datatype Option<+T> = None | Some(value: T)
}
