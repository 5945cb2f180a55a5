/** The optional-value datatype used where the editor returns either a
    value or Python's `False`. */
module Wrappers {

  datatype Option<+T> = None | Some(value: T)
}
