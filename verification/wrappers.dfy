/** Optional values: JavaScript's `undefined`/`null` results and optional fields. */
module Wrappers {

  datatype Option<+T> = None | Some(value: T)

  function Min(a: int, b: int): int {
    if a <= b then a else b
  }
}
