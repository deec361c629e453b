/** Facts about products, quotients, powers of two and set sizes that several modules need. */
module Arithmetic {

  lemma MulLe(a: int, b: int, s: nat)
    ensures a <= b ==> a * s <= b * s
  {
    assert a <= b ==> (b - a) * s >= 0;
    assert (b - a) * s == b * s - a * s;
  }

  lemma MulCancel(a: int, b: int, s: nat)
    requires a * s < b * s
    ensures a < b
  {
    MulLe(b, a, s);
  }

  lemma RealMulLt(x: real, y: real, s: real)
    requires s > 0.0
    ensures x < y ==> x * s < y * s
    ensures x <= y ==> x * s <= y * s
  {
    assert x < y ==> (y - x) * s > 0.0;
    assert (y - x) * s == y * s - x * s;
  }

  lemma QuotientBetween(n: int, size: nat, q: int)
    requires size >= 1 && q * size <= n < (q + 1) * size
    ensures n / size == q
  {
    var d := n / size;
    assert d * size + n % size == n;
    assert (d + 1) * size == d * size + size;
    MulCancel(d, q + 1, size);
    MulCancel(q, d + 1, size);
  }

  lemma QuotientBounds(n: int, size: nat)
    requires size >= 1
    ensures n / size * size <= n < (n / size + 1) * size
  {
    assert n / size * size + n % size == n;
    assert (n / size + 1) * size == n / size * size + size;
  }

  lemma QuotientMonotone(a: int, b: int, size: nat)
    requires size >= 1 && a <= b
    ensures a / size <= b / size
  {
    QuotientBounds(a, size);
    QuotientBounds(b, size);
    MulCancel(a / size, b / size + 1, size);
  }

  function Pow2(n: nat): nat
    ensures Pow2(n) >= 1
  {
    if n == 0 then 1 else 2 * Pow2(n - 1)
  }

  lemma {:induction false} Pow2Add(a: nat, b: nat)
    ensures Pow2(a + b) == Pow2(a) * Pow2(b)
  {
    if b == 0 {
    } else {
      Pow2Add(a, b - 1);
      assert Pow2(a) * (2 * Pow2(b - 1)) == 2 * (Pow2(a) * Pow2(b - 1));
    }
  }

  lemma SubsetSize<T>(a: set<T>, b: set<T>)
    requires a <= b
    ensures |a| <= |b|
  {
    assert b == a + (b - a);
  }
}
