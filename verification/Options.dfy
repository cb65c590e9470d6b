/** Optional values, for Go's nil and for the comma-ok form. */
module Options {
  datatype Option<+T> = None | Some(value: T)
}
