/** A value that may be missing: what the sources write as null or undefined. */
module Options {
  datatype Option<+T> = None | Some(value: T)
}
