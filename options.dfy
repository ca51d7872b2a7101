/** An optional value, for results the source reports as a null pointer. */
module Options {
  datatype Option<T> = None | Some(value: T)
}
