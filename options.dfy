/** Rust's `Option<T>`, used for a worker's slot and for the value a queue pop returns. */
module Options {
  datatype Option<+T> = None | Some(value: T)
}
