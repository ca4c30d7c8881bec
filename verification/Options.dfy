/** Values that may be missing: a nil pointer, an absent map entry, no error. */
module Options {
  datatype Option<+T> = None | Some(value: T)
}
