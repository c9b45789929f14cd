/** The JavaScript `null` of an optional index or record, as an explicit datatype. */
module Wrappers {

  datatype Option<+T> = None | Some(value: T)
}
