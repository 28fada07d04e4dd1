/** The usual optional value, for the null pointers and missing results of the C++ code. */
module Options {
  datatype Option<+T> = None | Some(value: T)
}
