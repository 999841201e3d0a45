/** Option and Result, shared by every other module. */
module Prelude {
  datatype Option<+T> = None | Some(value: T)

  datatype Result<+T, +E> = Ok(value: T) | Err(error: E)
}

/** Division facts that the solver does not find on its own. */
module DivMod {
  lemma MulAway(d: nat, e: int)
    ensures e >= 1 ==> d * e >= d
    ensures e <= -1 ==> d * e <= -(d as int)
  {
  }

  /** Quotient and remainder are determined by the division equation. */
  lemma DivModUnique(x: int, d: nat, q: int, r: nat)
    requires r < d && x == d * q + r
    ensures x / d == q && x % d == r
  {
    assert d * (q - x / d) == x % d - r;
    MulAway(d, q - x / d);
  }

  /** Numbers with the same remainder are whole multiples of d apart. */
  lemma SameRemainder(x: int, y: int, d: nat)
    requires d > 0 && x % d == y % d
    ensures y - x == d * (y / d - x / d)
    ensures x < y ==> y >= x + d
    ensures y < x ==> x >= y + d
  {
    assert x == d * (x / d) + x % d && y == d * (y / d) + y % d;
    MulAway(d, y / d - x / d);
  }
}
