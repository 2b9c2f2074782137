/** The optional value used where the source returns "nothing found" or
    an error it only logs. */
module Wrappers {

  datatype Option<+T> = None | Some(value: T)
}
