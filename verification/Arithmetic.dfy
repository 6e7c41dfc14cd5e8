/** Facts about products and quotients that the solver does not find by itself, and ring indices. */
module Arithmetic {
  lemma Product(a: nat, b: nat)
    ensures a * b >= 0
  {
  }

  lemma ProductPositive(a: nat, b: nat)
    requires a > 0 && b > 0
    ensures a * b > 0
  {
  }

  lemma ProductMono(a: nat, b: nat, c: nat, d: nat)
    requires a <= c && b <= d
    ensures a * b <= c * d
  {
    assert c * d == a * b + a * (d - b) + (c - a) * d;
    Product(a, d - b);
    Product(c - a, d);
  }

  /** Quotient and remainder are determined by their defining equation. */
  lemma Exact(n: int, d: int, k: int, r: int)
    requires d > 0 && n == d * k + r && 0 <= r < d
    ensures n % d == r && n / d == k
  {
    var q, m := n / d, n % d;
    assert n == d * q + m;
    assert d * (q - k) == r - m;
    if q > k {
      assert d * (q - k) == d + d * (q - k - 1);
      Product(d, q - k - 1);
    }
    if q < k {
      assert d * (k - q) == d + d * (k - q - 1);
      Product(d, k - q - 1);
    }
  }

  lemma QuotientNat(n: nat, d: nat)
    requires d > 0
    ensures n / d >= 0 && n == d * (n / d) + n % d
  {
  }

  lemma QuotientShrinks(n: nat, d: nat)
    requires d > 0
    ensures 0 <= n / d <= n
  {
    QuotientNat(n, d);
    var q := n / d;
    assert d * q == q + (d - 1) * q;
    Product(d - 1, q);
  }

  /** The slot `i` places after `start` in a ring of `n`. */
  function Slot(start: nat, i: nat, n: nat): (k: nat)
    requires start < n && i <= n
    ensures k < n
  {
    if start + i < n then start + i else start + i - n
  }

  lemma SlotIsMod(start: nat, i: nat, n: nat)
    requires start < n && i <= n
    ensures Slot(start, i, n) == (start + i) % n
  {
    Exact(start + i, n, if start + i < n then 0 else 1, Slot(start, i, n));
  }
}
