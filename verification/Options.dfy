/** A value that may be absent: std::optional, or a null pointer. */
module Options {
  datatype Option<T> = None | Some(value: T)
}
