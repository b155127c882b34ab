/** The optional value shared by the modules that model Rust's `Option` and
    JavaScript's `null`. */
module Wrappers {
  datatype Option<T> = None | Some(value: T)
}
