module Options {

  /** A value, or Python's None. */
  datatype Option<T> = None | Some(value: T)
}
