/** A value that may be absent: the source's `null`, `undefined` and thrown errors. */
module Options {
  datatype Option<+T> = None | Some(value: T)
}
