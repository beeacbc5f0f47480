/** The optional-value datatype shared by the whole model. */
module Wrappers {

  /** `None` stands for JavaScript's `undefined` (or `NaN`, for a parsed number). */
  datatype Option<+T> = None | Some(value: T)
}
