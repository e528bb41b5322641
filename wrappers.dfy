/** Helper datatypes shared by the other modules. */
module Wrappers {

  /** A value that may be absent; `None` stands for JavaScript's `null`. */
  datatype Option<+T> = None | Some(value: T)
}
