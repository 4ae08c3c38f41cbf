/** Option stands for JavaScript's `null` (None) versus a present value (Some). */
module Wrappers {
  datatype Option<+T> = None | Some(value: T)
}
