/**
 * Column arithmetic as numpy performs it on float columns, over exact reals:
 * NaN (`None`) propagates through arithmetic and every comparison involving
 * NaN is false.
 */
module Floats {
  import opened Wrappers

  type Num = Option<real>

  function Add(a: Num, b: Num): Num
  {
    if a.Some? && b.Some? then Some(a.value + b.value) else None
  }

  function Sub(a: Num, b: Num): Num
  {
    if a.Some? && b.Some? then Some(a.value - b.value) else None
  }

  function Mul(a: Num, b: Num): Num
  {
    if a.Some? && b.Some? then Some(a.value * b.value) else None
  }

  predicate Lt(a: Num, b: Num)
  {
    a.Some? && b.Some? && a.value < b.value
  }

  predicate Gt(a: Num, b: Num)
  {
    a.Some? && b.Some? && a.value > b.value
  }
}
