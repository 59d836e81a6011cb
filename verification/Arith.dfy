/** Facts about division and powers of two that the solver needs spelled out. */
module Arith {

  /** Quotient and remainder are determined by the division identity. */
  lemma DivModUnique(n: int, size: int, q: int, r: int)
    requires size > 0 && n == size * q + r && 0 <= r < size
    ensures n / size == q && n % size == r
  {
    var d := n / size - q;
    assert size * d == r - n % size;
  }

  lemma DivMod(n: int, size: int)
    requires size > 0
    ensures n == size * (n / size) + n % size && 0 <= n % size < size
  {
  }

  lemma MulMonotone(a: int, b: int, c: int)
    requires a <= b && c >= 0
    ensures a * c <= b * c
  {
    assert 0 <= (b - a) * c;
  }

  lemma MulAssociates(a: int, b: int, c: int)
    ensures a * (b * c) == (a * b) * c
  {
  }

  function Pow2(n: nat): (p: nat)
    ensures p > 0
  {
    if n == 0 then 1 else 2 * Pow2(n - 1)
  }

  lemma {:induction false} Pow2Add(a: nat, b: nat)
    ensures Pow2(a + b) == Pow2(a) * Pow2(b)
  {
    if a > 0 {
      Pow2Add(a - 1, b);
      MulAssociates(2, Pow2(a - 1), Pow2(b));
    }
  }

  lemma {:induction false} Pow2Doubles(n: nat, value: nat)
    requires Pow2(n) == value
    ensures Pow2(2 * n) == value * value
  {
    Pow2Add(n, n);
  }

  lemma {:induction false} Pow2Monotone(a: nat, b: nat)
    requires a <= b
    ensures Pow2(a) <= Pow2(b)
  {
    if a < b {
      Pow2Monotone(a, b - 1);
    }
  }
}
