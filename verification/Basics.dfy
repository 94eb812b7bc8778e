/** Values shared by every module: optional values and 32-bit saturating counters. */
module Basics {
  datatype Option<+T> = None | Some(value: T)

  const U32_MAX: int := 0xFFFF_FFFF

  type U32 = n: int | 0 <= n <= U32_MAX

  /** The value a saturating 32-bit counter shows for the true total `n`. */
  function Sat(n: nat): U32 {
    if n <= U32_MAX then n else U32_MAX
  }

  function SatAdd(a: U32, b: U32): U32 {
    Sat(a + b)
  }

  function SatSub(a: U32, b: U32): U32 {
    if b <= a then a - b else 0
  }

  function Dist(x: int, y: int): nat {
    if x < y then y - x else x - y
  }
}
