/** Powers of two and the facts about Euclidean division that the width and
    modular-arithmetic proofs share. */
module Arith {

  function Pow2(k: nat): (p: nat)
    ensures p >= 1
  {
    if k == 0 then 1 else 2 * Pow2(k - 1)
  }

  lemma MulAtLeast(m: int, d: int)
    requires m > 0 && d >= 1
    ensures m * d >= m
  {
    assert m * d == m * (d - 1) + m;
    assert m * (d - 1) >= 0;
  }

  /** Euclidean division is unique: a quotient and a remainder in range are the ones. */
  lemma DivModUnique(n: int, m: int, k: int, t: int)
    requires m > 0 && n == m * k + t && 0 <= t < m
    ensures n % m == t && n / m == k
  {
    var q, r := n / m, n % m;
    assert n == m * q + r;
    assert m * k - m * q == r - t;
    assert m * (k - q) == r - t;
    if k > q {
      MulAtLeast(m, k - q);
    } else if k < q {
      MulAtLeast(m, q - k);
    }
  }

  /** The remainder modulo `2p` is the low bit plus twice the remainder of the half. */
  lemma ModDouble(n: int, p: int)
    requires p > 0
    ensures n % (2 * p) == n % 2 + 2 * ((n / 2) % p)
  {
    var q, s := n / 2, (n / 2) % p;
    assert q == p * (q / p) + s;
    assert n == 2 * p * (q / p) + (2 * s + n % 2);
    DivModUnique(n, 2 * p, q / p, 2 * s + n % 2);
  }

  /** Reducing one summand first does not change a sum modulo `m`. */
  lemma ModAddRight(x: int, y: int, m: int)
    requires m > 0
    ensures (x + y % m) % m == (x + y) % m
  {
    var z := x + y;
    assert y == m * (y / m) + y % m;
    assert z == m * (z / m) + z % m;
    assert x + y % m == m * (z / m - y / m) + z % m;
    DivModUnique(x + y % m, m, z / m - y / m, z % m);
  }
}
