module Options {
  /** A value that may be missing: the source's `null` and `undefined`, and its
      errors where their kind does not matter. */
  datatype Option<+T> = None | Some(value: T)
}
