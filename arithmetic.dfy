/**
  Integer facts shared by the modules: products are bounded by their
  factors and divisible by each of them.
*/
module Arithmetic {

  /** A non-negative factor scales a lower bound on the other factor. */
  lemma MulAtLeast(a: int, b: int, k: int)
    requires 0 < k <= b && a >= 0
    ensures a * b >= a * k
  {
  }

  /** A product is divisible by each of its factors. */
  lemma MultipleMod(k: int, e: int)
    requires e > 0
    ensures (k * e) % e == 0
  {
    var q, r := (k * e) / e, (k * e) % e;
    assert e * (k - q) == r;
    if k - q >= 1 {
      MulAtLeast(e, k - q, 1);
    } else if k - q <= -1 {
      MulAtLeast(e, q - k, 1);
    }
  }
}
