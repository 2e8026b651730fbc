/** A value that may be missing: a null pointer, a failed allocation, an empty slot. */
module Options {
  datatype Option<+T> = None | Some(value: T)
}
