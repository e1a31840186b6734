/** The optional-value datatype used where the source has `Member | null`. */
module Wrappers {

  datatype Option<+T> = None | Some(value: T)
}
