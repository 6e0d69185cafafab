/** An optional value: `None` stands for JavaScript's `undefined`/`null` where the demo tests for it. */
module Wrappers {
  datatype Option<+T> = None | Some(value: T)
}
