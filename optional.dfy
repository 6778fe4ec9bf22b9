/** A value that may be absent, as `undefined` is in the source. */
module Optional {
  datatype Option<T> = None | Some(value: T)
}
