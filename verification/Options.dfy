/** The absent-or-present result that the kernel's `Option` returns become. */
module Options {
  datatype Option<+T> = None | Some(value: T)
}
