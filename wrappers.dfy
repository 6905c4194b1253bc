/** Nullable values: a database column or a dictionary entry that may hold None/NULL. */
module Wrappers {

  datatype Option<+T> = None | Some(value: T)
}
