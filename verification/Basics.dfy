/** Machine integers and small helpers shared by every module. */
module Basics {
  type byte = x: int | 0 <= x < 0x100
  type char16 = x: int | 0 <= x < 0x1_0000

  datatype Option<T> = None | Some(value: T)

  const ESC: byte := 0x1b

  function Min(a: int, b: int): int {
    if a < b then a else b
  }

  function Max(a: int, b: int): int {
    if a > b then a else b
  }
}
