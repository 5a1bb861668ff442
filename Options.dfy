/** A value that may be absent: Java's nullable references. */
module Options {
  datatype Option<+T> = None | Some(value: T)
}
