/** Facts about integers that several modules use. */
module Arithmetic {

  lemma {:induction false} NextMultiple(n: int, d: int)
    ensures (n + 1) * d == n * d + d
  {}

  lemma {:induction false} MultipleMonotone(a: int, b: int, d: nat)
    requires a <= b
    ensures a * d <= b * d
  {}

  lemma {:induction false} Distribute(p: int, q: int, d: int)
    ensures (p + q) * d == p * d + q * d
  {}

  lemma {:induction false} QuotientOf(p: nat, k: nat, d: nat)
    requires k < d
    ensures (p * d + k) / d == p && (p * d + k) % d == k
  {
    var n := p * d + k;
    var q := n / d;
    assert n == q * d + n % d;
    if q < p {
      MultipleMonotone(q + 1, p, d);
      NextMultiple(q, d);
      assert false;
    } else if q > p {
      MultipleMonotone(p + 1, q, d);
      NextMultiple(p, d);
      assert false;
    }
  }

  lemma {:induction false} Halves(v: nat)
    ensures v / 2 / 2 == v / 4 && v / 4 / 2 == v / 8 && v / 8 / 2 == v / 16 && v / 16 / 2 == v / 32
  {}
}
