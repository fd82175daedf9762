/** A value that may be absent: std::optional. */
module Options {
  datatype Option<+T> = None | Some(value: T)
}
