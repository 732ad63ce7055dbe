/** The optional-value datatype shared by the parser and the payload encoder. */
module Wrappers {

  /** A value that may be absent: `None` stands for JavaScript's `null`/`undefined`. */
  datatype Option<+T> = None | Some(value: T)
}
