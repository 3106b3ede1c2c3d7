/** A value that may be missing: null, undefined, or the zero value of a failed look-up. */
module Options {
  datatype Option<+T> = None | Some(value: T)
}
