/** Absolute values of exact reals. */
module Reals {
  function Abs(r: real): (a: real)
    ensures a >= 0.0 && a >= r && a >= -r && (a == r || a == -r)
  {
    if r < 0.0 then -r else r
  }
}
