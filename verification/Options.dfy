/** Values that may be missing, where the program uses None. */
module Options {

  datatype Option<+T> = None | Some(value: T)
}
