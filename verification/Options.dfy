/** The conventional present-or-absent value. */
module Options {
  datatype Option<+T> = None | Some(value: T)
}
