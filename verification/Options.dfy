/** A value that may be missing: what a decoder returns when it recognises nothing. */
module Options {
  datatype Option<T> = None | Some(value: T)
}
