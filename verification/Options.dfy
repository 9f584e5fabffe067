/** Optional values: a missing result, or a failed assertion. */
module Options {
  datatype Option<+T> = None | Some(value: T)
}
