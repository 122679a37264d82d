/** The result of something that may raise. */
module Options {
  datatype Option<+T> = None | Some(value: T)
}
