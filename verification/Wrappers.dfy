/** Optional values, where `None` also stands for a call that panics or returns an error, and the lesser of two. */
module Wrappers {
  datatype Option<+T> = None | Some(value: T)

  function Min(a: nat, b: nat): nat {
    if a <= b then a else b
  }
}
