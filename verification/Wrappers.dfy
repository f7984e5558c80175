/** A value that may be missing: `std::optional`, `npos`, a null result or a refusal. */
module Wrappers {
  datatype Option<+T> = None | Some(value: T)
}
