/** An optional value, standing for Go's "ok" flags and nil-able results. */
module Optional {
  datatype Option<+T> = None | Some(value: T)
}
