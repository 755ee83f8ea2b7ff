/** An optional value: the model's rendering of Python's `None` beside a present value. */
module Options {
  datatype Option<T> = None | Some(value: T)
}
