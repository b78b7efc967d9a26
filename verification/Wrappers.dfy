/** What the models share: optional values, and counting a condition. */
module Wrappers {
  datatype Option<+T> = None | Some(value: T)

  function One(b: bool): nat {
    if b then 1 else 0
  }
}
