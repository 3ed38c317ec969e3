/** Small shared vocabulary: an optional value (JavaScript's `null`) and
    integer minimum/maximum (`Math.min`/`Math.max` on integers). */
module Util {

  datatype Option<+T> = None | Some(value: T)

  function Min(a: int, b: int): int { if a <= b then a else b }

  function Max(a: int, b: int): int { if a >= b then a else b }
}
