/** The Some/None wrapper that stands for Python's `X | None`. */
module Options {
  datatype Option<+T> = None | Some(value: T)
}
