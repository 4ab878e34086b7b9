/** A value that may be absent: JavaScript's `undefined` or `null` where one is meant. */
module Options {
  datatype Option<+T> = None | Some(value: T)
}
