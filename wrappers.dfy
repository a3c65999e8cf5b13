/** Kotlin's nullable references (`T?`) are modelled by `Option<T>`. */
module Wrappers {
  datatype Option<+T> = None | Some(value: T)
}
