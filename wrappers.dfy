/** An optional value, used for JavaScript's `undefined`, `null` and `NaN`. */
module Wrappers {

  datatype Option<+T> = None | Some(value: T)
}
