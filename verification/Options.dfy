/** A value that may be absent: the program's nil, zero value with false, or error without a value. */
module Options {
  datatype Option<+T> = None | Some(value: T)
}
