/** A Java reference that may be null, as a value. */
module Optional {
  datatype Option<T> = None | Some(value: T)
}
