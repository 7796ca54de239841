/** An optional value, used for results that may be absent. */
module Wrappers {

  /** A value that may be missing: the outcome of a computation that can be refused. */
  datatype Option<+T> = None | Some(value: T)
}
