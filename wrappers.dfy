/** A small optional-value datatype, used for a tile's occupant and for queue pops. */
module Wrappers {

  datatype Option<+T> = None | Some(value: T)

}
