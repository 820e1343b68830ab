/** The optional value used throughout the model: a JavaScript `null`/`undefined` or a present value. */
module Optional {
  datatype Option<+T> = None | Some(value: T)
}
