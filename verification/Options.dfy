/** Presence or absence of a value: the source's `None`. */
module Options {
  datatype Option<+T> = None | Some(value: T)
}
