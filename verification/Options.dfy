// The result of an operation that may have nothing to return.
module Options {
  datatype Option<+T> = None | Some(value: T)
}
