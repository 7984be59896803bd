/** A few functions on the reals. */
module Reals {

  function Abs(x: real): real { if x < 0.0 then -x else x }

  /** `x` brought into [lo, hi]. */
  function Clip(x: real, lo: real, hi: real): real { if x < lo then lo else if x > hi then hi else x }

  /** A product by name: equal factors give equal products without any algebra. */
  function Times(a: real, b: real): real { a * b }
}
