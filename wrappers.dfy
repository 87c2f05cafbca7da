/** The optional value used for regex groups that may not participate and
    for Python's `None`. */
module Wrappers {

  datatype Option<+T> = None | Some(value: T)
}
