/** A value that may be missing: a null pointer, an entry not found, a file that cannot be read. */
module Options {
  datatype Option<+T> = None | Some(value: T)
}
