/** The few non-linear facts the other modules need. */
module Arithmetic {

  lemma MulMono(a: int, b: int, p: int)
    requires a <= b && 0 <= p
    ensures a * p <= b * p
  {
    assert b * p - a * p == (b - a) * p;
  }

  lemma DivBounds(x: int, p: int)
    requires 0 < p
    ensures (x / p) * p <= x < (x / p + 1) * p
    ensures x == (x / p) * p + x % p
  {
    assert (x / p + 1) * p == (x / p) * p + p;
  }

  lemma DivUnique(x: int, p: int, q: int)
    requires 0 < p && q * p <= x < (q + 1) * p
    ensures x / p == q
  {
    DivBounds(x, p);
    if x / p < q { MulMono(x / p + 1, q, p); }
    if q < x / p { MulMono(q + 1, x / p, p); }
  }

  /** A product of the quotient is the greatest multiple not above `x`. */
  lemma RoundDown(x: int, p: int, q: int)
    requires 0 < p && 0 <= x && q == x / p
    ensures 0 <= q * p <= x < q * p + p && (q * p) % p == 0
  {
    DivBounds(x, p);
    assert (q + 1) * p == q * p + p;
    assert 0 <= q;
    MulMono(0, q, p);
    ExactMod(q * p, p, q);
  }

  /** The multiples of `p` are `p` apart. */
  lemma MultipleGap(x: int, y: int, p: int)
    requires 0 < p && x % p == 0 && y % p == 0 && x < y
    ensures x + p <= y
  {
    DivBounds(x, p);
    DivBounds(y, p);
    if y / p <= x / p { MulMono(y / p, x / p, p); }
    MulMono(x / p + 1, y / p, p);
  }

  lemma MultipleDiff(x: int, y: int, p: int)
    requires 0 < p && x % p == 0 && y % p == 0
    ensures (x - y) % p == 0
    ensures (x + p) % p == 0 && (x - p) % p == 0
  {
    DivBounds(x, p);
    DivBounds(y, p);
    ExactMod(x - y, p, x / p - y / p);
    ExactMod(x + p, p, x / p + 1);
    ExactMod(x - p, p, x / p - 1);
  }

  lemma ExactMod(x: int, p: int, q: int)
    requires 0 < p && x == q * p
    ensures x % p == 0 && x / p == q
  {
    assert (q + 1) * p == q * p + p;
    DivUnique(x, p, q);
    DivBounds(x, p);
  }
}
