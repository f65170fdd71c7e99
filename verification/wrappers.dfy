/** The nullable values of the dashboard: a backend answer that may be missing, an
    optional record passed to a modal, the result of `Array.prototype.find`. */
module Wrappers {

  datatype Option<T> = None | Some(value: T)

  function Min(a: int, b: int): int { if a <= b then a else b }

  function Max(a: int, b: int): int { if a >= b then a else b }
}
