/** A value that may be absent: a missing slot, an offset not given, a NULL result. */
module Options {
  datatype Option<+T> = None | Some(value: T)
}
