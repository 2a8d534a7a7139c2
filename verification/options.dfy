/** A value that may be missing: a placement that ran out of random draws. */
module Options {
  datatype Option<T> = None | Some(value: T)
}
