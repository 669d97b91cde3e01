/** The optional value used for library calls that may fail (a throwing
    conversion, a search that finds nothing). */
module Wrappers {

  datatype Option<+T> = None | Some(value: T)
}
