/** The optional value used wherever the source returns a reference or `null`. */
module Options {
  datatype Option<+T> = None | Some(value: T)
}
