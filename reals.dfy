/** The real-valued `std::min`, `std::max` and `std::abs` that the loader
    and the spectral header both use. `Min` returns its first argument on a
    tie and `Max` its first argument on a tie, as the standard library does. */
module Reals {

  function Min(a: real, b: real): real { if b < a then b else a }
  function Max(a: real, b: real): real { if a < b then b else a }
  function Abs(x: real): real { if x < 0.0 then -x else x }
}
