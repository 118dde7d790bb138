/** An optional value, for lookups and readers that may fail. */
module Options {
  datatype Option<+T> = None | Some(value: T)
}
