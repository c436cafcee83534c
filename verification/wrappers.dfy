/** The optional value returned by a search that may find nothing
    (Kotlin's nullable result of `find`, and the result of parsing). */
module Wrappers {

  datatype Option<+T> = None | Some(value: T)
}
