/** The conventional optional value, for Go's nil pointers and absent fields. */
module Options {
  datatype Option<+T> = None | Some(value: T)
}
