/** Small result types shared by the other modules. */
module Wrappers {

  /** A value that may be absent (a failed lookup, `NaN` from a parse). */
  datatype Option<+T> = None | Some(value: T)
}
