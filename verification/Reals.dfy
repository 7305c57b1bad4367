/** Facts about products and quotients of reals, each small enough for the solver. */
module Reals {

  lemma ScaleLeq(a: real, b: real, c: real)
    requires a <= b && c >= 0.0
    ensures a * c <= b * c
  {
    assert (b - a) * c >= 0.0;
  }

  lemma LeqByFactor(a: real, b: real, c: real)
    requires c > 0.0
    ensures a <= b <==> a * c <= b * c
  {
    if a <= b {
      ScaleLeq(a, b, c);
    } else {
      assert (a - b) * c > 0.0;
    }
  }

  lemma Quotient(a: real, b: real)
    requires b > 0.0
    ensures (a / b) * b == a
    ensures a >= 0.0 ==> a / b >= 0.0
    ensures a > 0.0 ==> a / b > 0.0
  {
  }

  lemma QuotientSign(a: real, b: real)
    requires b > 0.0
    ensures (a / b > 0.0 <==> a > 0.0) && (a / b == 0.0 <==> a == 0.0)
  {
  }

  /** The product is a parameter, so that a caller can name a square. */
  lemma PositiveProduct(a: real, b: real, product: real)
    requires a > 0.0 && b > 0.0 && product == a * b
    ensures product > 0.0
  {
  }
}
