/** The "no result" sentinel of the C++ code (a NULL return). */
module Wrappers {

  datatype Option<+T> = None | Some(value: T)

}
