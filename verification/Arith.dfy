/** Facts about products and quotients that several models need. */
module Arith {
  function Least(a: nat, b: nat): nat { if a < b then a else b }

  lemma MulLe(a: int, b: int, s: nat)
    requires a <= b
    ensures a * s <= b * s
  {
  }

  lemma MulAdd(a: int, b: int, s: int)
    ensures (a + b) * s == a * s + b * s
  {
  }

  /** A quotient and a remainder determine their number, and are determined by it. */
  lemma Quotient(q: nat, r: nat, s: nat)
    requires r < s
    ensures (q * s + r) / s == q && (q * s + r) % s == r
  {
    var n := q * s + r;
    var p := n / s;
    assert n == p * s + n % s;
    MulAdd(p, 1, s);
    MulAdd(q, 1, s);
    if p < q {
      MulLe(p + 1, q, s);
      assert false;
    }
    if q < p {
      MulLe(q + 1, p, s);
      assert false;
    }
  }

  lemma Division(n: nat, s: nat)
    requires s > 0
    ensures n == n / s * s + n % s && 0 <= n % s < s
  {
  }
}
