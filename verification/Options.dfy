// A value that may be absent: the source's NULL pointers and -1 results.
module Options {
  datatype Option<+T> = None | Some(value: T)
}
