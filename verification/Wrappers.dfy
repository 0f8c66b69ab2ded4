/** The optional value that stands for std::optional and for "not found". */
module Wrappers {

  datatype Option<+T> = None | Some(value: T)
}
