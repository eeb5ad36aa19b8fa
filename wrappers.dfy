/** The optional value shared by the decimal parser and the id lookup. */
module Wrappers {

  datatype Option<+T> = None | Some(value: T)
}
