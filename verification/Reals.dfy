/** std::max and std::min on doubles. */
module Reals {
  function Larger(x: real, y: real): real { if x < y then y else x }

  function Smaller(x: real, y: real): real { if y < x then y else x }
}
