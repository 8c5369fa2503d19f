/** An optional value, as the functions of the program return them. */
module Options {
  datatype Option<+T> = None | Some(value: T)
}
