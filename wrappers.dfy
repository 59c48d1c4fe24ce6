/** Option, for a value that may be absent: a JSON field, a parsed number, a vectoriser result. */
module Wrappers {

  datatype Option<+T> = None | Some(value: T)
}
