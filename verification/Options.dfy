// A value that may be missing: a null pointer or a 0 where the source means "none".
module Options {
  datatype Option<+T> = None | Some(value: T)
}
