/** The absent-or-present value that stands for JavaScript's `null` in results. */
module Options {
  datatype Option<+T> = None | Some(value: T)
}
