/** The optional value that stands for a Kotlin nullable (`T?`) result. */
module Wrappers {

  datatype Option<+T> = None | Some(value: T)
}
