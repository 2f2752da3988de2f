/** The optional value used for pandas' missing entries (NaN cells, unmapped labels). */
module Wrappers {

  datatype Option<+T> = None | Some(value: T)
}
