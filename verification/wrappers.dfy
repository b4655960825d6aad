/** The optional value and the validation outcome shared by the vocabulary modules. */
module Wrappers {

  /** Python's `None` or a present value. */
  datatype Option<+T> = None | Some(value: T)

  /** Outcome of a validation step: it passes, or fails with an error. */
  datatype Outcome<+E> = Pass | Fail(error: E)
}
