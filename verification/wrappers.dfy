/** A tiny optional-value datatype, used where a foreign library call of the
    page script either returns a value or throws. */
module Wrappers {

  datatype Option<+T> = None | Some(value: T)
}
