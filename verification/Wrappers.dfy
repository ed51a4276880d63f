/** The optional result used where the program returns `std::optional` or an end iterator. */
module Wrappers {
  datatype Option<+T> = None | Some(value: T)
}
