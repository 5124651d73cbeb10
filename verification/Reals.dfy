// Division of reals, as multiplication.

module Reals {
  // A quotient by a positive number is determined by its product.
  lemma Quotient(x: real, n: real, y: real)
    requires n > 0.0
    ensures x == y / n <==> x * n == y
  {}
}
