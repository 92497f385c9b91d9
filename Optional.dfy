/** The optional value used for a nullable input and for a construction that
    may fail. */
module Optional {
  datatype Option<+T> = None | Some(value: T)
}
