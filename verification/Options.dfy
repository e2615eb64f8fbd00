/** A value that may be absent: a nil value, a missing row, a failed parse. */
module Options {
  datatype Option<+T> = None | Some(value: T)
}
