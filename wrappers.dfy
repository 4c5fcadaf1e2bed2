/** The optional value used for a parsed index (None stands for NaN). */
module Wrappers {

  datatype Option<+T> = None | Some(value: T)
}
