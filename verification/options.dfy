/** Ruby's `nil` as a result. */
module Options {
  datatype Option<T> = None | Some(value: T)
}
