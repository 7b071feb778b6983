// A value that may be absent: Go's nil, a missing map entry, an error.
module Optional {
  datatype Option<+T> = None | Some(value: T)
}
