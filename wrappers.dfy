/** The optional value the pipeline uses where pandas produces a missing value. */
module Wrappers {

  datatype Option<+T> = None | Some(value: T)
}
