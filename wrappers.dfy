/** Small failure-carrying datatypes shared by the other modules. */
module Wrappers {

  /** A value that may be missing: a JavaScript `null`/`undefined` or an absent map entry. */
  datatype Option<+T> = None | Some(value: T)
}
