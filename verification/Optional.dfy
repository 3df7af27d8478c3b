/** The generic wrapper the models share. */
module Optional {
  datatype Option<+T> = None | Some(value: T)
}
