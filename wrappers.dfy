/** The optional value the source expresses with `null` / `undefined`. */
module Wrappers {
  datatype Option<+T> = None | Some(value: T)
}
