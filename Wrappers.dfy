/** Optional values, used wherever the source returns null or may lack a value. */
module Wrappers {
  datatype Option<T> = None | Some(value: T)

  function Max(a: int, b: int): (r: int)
    ensures r >= a && r >= b && (r == a || r == b)
  {
    if a >= b then a else b
  }
}
