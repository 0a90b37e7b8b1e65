/** A value that may be absent: Java's null reference for strings and parse results. */
module Optional {
  datatype Option<T> = None | Some(value: T)
}
