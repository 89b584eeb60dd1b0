/** The optional-value type used wherever the source works with a value that may be
    `undefined`, `null` or `NaN`. */
module Wrappers {

  datatype Option<+T> = None | Some(value: T)
}
