/** An optional value: absent parts, empty results. */
module Options {
  datatype Option<+T> = None | Some(value: T)
}
