/** The optional value returned by the catalogue lookups (`undefined` / `null` in the program). */
module Wrappers {

  datatype Option<+T> = None | Some(value: T)
}
