/** The few facts about products and quotients with a symbolic divisor that the ring's
    cells and the slab's blocks rest on. */
module Arithmetic {

  lemma MultipleOf(k: int, size: nat)
    requires k > 0
    ensures k * size >= size
  {
    assert k * size == (k - 1) * size + size;
  }

  /** A number has one quotient and one remainder. */
  lemma QuotientUnique(a: int, r: nat, b: int, q: nat, size: nat)
    requires r < size && q < size
    requires a * size + r == b * size + q
    ensures a == b && r == q
  {
    assert (a - b) * size == q - r;
    if a > b { MultipleOf(a - b, size); }
    if a < b { assert (b - a) * size == r - q; MultipleOf(b - a, size); }
  }

  lemma DivideExactly(i: nat, r: nat, size: nat)
    requires r < size
    ensures (i * size + r) / size == i && (i * size + r) % size == r
  {
    var n := i * size + r;
    QuotientUnique(n / size, n % size, i, r, size);
  }

  lemma MultiplyMonotone(i: nat, j: nat, size: nat)
    requires i < j
    ensures i * size + size <= j * size
  {
    MultipleOf(j - i, size);
    assert (j - i) * size == j * size - i * size;
  }

  lemma QuotientPositive(n: nat, size: nat)
    requires 0 < size <= n
    ensures n / size > 0
  {
    assert n == n / size * size + n % size;
  }
}
