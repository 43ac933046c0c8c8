/** A value that may be absent: Go's extra boolean result, or nil. */
module Options {
  datatype Option<T> = None | Some(value: T)
}
