/** Facts about products and floor division that the other modules share. */
module Arithmetic {

  function Min(a: int, b: int): int {
    if a < b then a else b
  }

  function Max(a: int, b: int): int {
    if a < b then b else a
  }

  lemma MulMono(a: int, b: int, c: int)
    requires a <= b && 0 <= c
    ensures a * c <= b * c
  {
  }

  /** A quotient is at most `c` exactly when the dividend is below the next multiple. */
  lemma DivAtMost(a: int, b: int, c: int)
    requires 0 < b
    ensures a / b <= c <==> a < (c + 1) * b
  {
    assert a == a / b * b + a % b;
    if a / b <= c {
      MulMono(a / b, c, b);
      assert (c + 1) * b == c * b + b;
    } else {
      MulMono(c + 1, a / b, b);
    }
  }

  /** A quotient is at least `c` exactly when the dividend reaches the `c`-th multiple. */
  lemma DivAtLeast(a: int, b: int, c: int)
    requires 0 < b
    ensures c <= a / b <==> c * b <= a
  {
    DivAtMost(a, b, c - 1);
  }

  /** Whole multiples of the divisor move out of a quotient. */
  lemma DivShift(a: int, b: int, k: int)
    requires 0 < b
    ensures (a + k * b) / b == a / b + k
    ensures (a + k * b) % b == a % b
  {
    var q := a / b;
    assert a == q * b + a % b;
    assert a + k * b == (q + k) * b + a % b;
    DivAtLeast(a + k * b, b, q + k);
    assert (q + k + 1) * b == (q + k) * b + b;
    DivAtMost(a + k * b, b, q + k);
  }
}
