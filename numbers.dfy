/** `std::cmp::{min, max}` and `usize::abs_diff` on unbounded naturals. */
module Numbers {

  function Min(a: nat, b: nat): (m: nat)
    ensures m <= a && m <= b && (m == a || m == b)
  {
    if a < b then a else b
  }

  function Max(a: nat, b: nat): (m: nat)
    ensures m >= a && m >= b && (m == a || m == b)
  {
    if a > b then a else b
  }

  /** The distance between two naturals. */
  function AbsDiff(a: nat, b: nat): (d: nat)
    ensures d == a - b || d == b - a
  {
    if a >= b then a - b else b - a
  }
}
