/** Monotonicity of multiplication by a positive factor, which the grid and
    swipe arguments need and the solver does not reliably find alone. */
module Arith {

  lemma {:induction false} MulMono(a: int, b: int, k: nat)
    requires a <= b
    ensures k * a <= k * b
  {
    if k > 0 {
      MulMono(a, b, k - 1);
      assert k * a == (k - 1) * a + a;
      assert k * b == (k - 1) * b + b;
    }
  }

  lemma MulStrict(a: int, b: int, k: int)
    requires a < b && k >= 1
    ensures k * a < k * b
  {
    MulMono(a, b, k - 1);
    assert k * a == (k - 1) * a + a;
    assert k * b == (k - 1) * b + b;
  }

  /** For a positive factor, the smaller product has the smaller multiplicand. */
  lemma CancelFactor(a: int, b: int, k: int)
    requires k >= 1 && k * a < k * b
    ensures a < b
  {
    if b <= a {
      MulMono(b, a, k);
    }
  }
}
