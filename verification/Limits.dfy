// The order functions on numbers that the scoring code is written with.
module Limits {
  function Max(a: real, b: real): real { if a >= b then a else b }

  function Min(a: real, b: real): real { if a <= b then a else b }

  function Abs(a: real): real { if a < 0.0 then -a else a }

  function Clamp(value: real, minimum: real, maximum: real): real
  {
    Max(minimum, Min(maximum, value))
  }
}
