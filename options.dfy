/** The optional value used for parses that may fail. */
module Options {
  datatype Option<+T> = None | Some(value: T)
}
