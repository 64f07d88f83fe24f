/** The absent-or-present values of the browser script: `undefined`/`null` is `None`. */
module Wrappers {
  datatype Option<+T> = None | Some(value: T)
}
