module Options {
  /** A value the source leaves `undefined`. */
  datatype Option<+T> = None | Some(value: T)
}
