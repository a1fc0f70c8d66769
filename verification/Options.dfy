/** An optional value, as the sources use `null`, `undefined` and `Option`. */
module Options {
  datatype Option<+T> = None | Some(value: T)
}
