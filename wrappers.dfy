/** The optional value returned by a header lookup: a header's text, or its absence (JavaScript's null). */
module Wrappers {

  datatype Option<+T> = None | Some(value: T)

}
