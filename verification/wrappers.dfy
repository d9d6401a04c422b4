/** The optional-value type shared by the other modules. */
module Wrappers {

  /** A value that may be absent: a JavaScript `undefined`/`NaN` result, a missing record. */
  datatype Option<+T> = None | Some(value: T)
}
