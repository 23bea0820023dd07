/** A value or Python's None. */
module Options {
  datatype Option<+T> = None | Some(value: T)
}
