/** An optional value: `Some(v)` when there is one, `None` when there is not. */
module Options {

  datatype Option<+T> = None | Some(value: T)
}
