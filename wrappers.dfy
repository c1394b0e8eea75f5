/** The optional value used for the source's nullable fields (`string | null`, `destination?`). */
module Wrappers {
  datatype Option<+T> = None | Some(value: T)
}
