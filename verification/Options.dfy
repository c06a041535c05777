/** A value that may be missing, or that a call that raised does not have. */
module Options {

  datatype Option<+T> = None | Some(value: T)
}
