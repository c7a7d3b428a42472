/** The result of an operation that may refuse its input or find nothing. */
module Options {
  datatype Option<+T> = None | Some(value: T)
}
