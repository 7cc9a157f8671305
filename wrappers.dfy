/** The Option type used for JavaScript's `null`, `undefined` and `NaN` results. */
module Wrappers {

  datatype Option<+T> = None | Some(value: T)
}
