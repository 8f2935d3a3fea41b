/** The absence of a value: a missing key, or a call that raised. */
module Options {
  datatype Option<+T> = None | Some(value: T)
}
