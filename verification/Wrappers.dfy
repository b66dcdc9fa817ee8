/** The success-or-absence wrapper that models `std::optional` and boolean out-parameters. */
module Wrappers {
  datatype Option<+T> = None | Some(value: T)
}
