/** What many components need: optional values, and the smaller and the larger of
    two numbers. */
module Basics {

  datatype Option<T> = None | Some(value: T)

  function Min(x: int, y: int): int {
    if x < y then x else y
  }

  function Max(x: int, y: int): int {
    if x < y then y else x
  }
}
