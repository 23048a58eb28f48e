/** Remainders by a positive modulus, for rings indexed by an ever growing count. */
module Residues {

  lemma MulLess(a: int, b: int, m: int)
    requires a < b && m > 0
    ensures a * m + m <= b * m
  {
    assert (b - a - 1) * m >= 0;
    assert b * m == a * m + m + (b - a - 1) * m;
  }

  /** Quotient and remainder are determined. */
  lemma Unique(p: int, r: int, q: int, s: int, m: int)
    requires m > 0 && 0 <= r < m && 0 <= s < m && p * m + r == q * m + s
    ensures p == q && r == s
  {
    if p < q {
      MulLess(p, q, m);
    } else if q < p {
      MulLess(q, p, m);
    }
  }

  lemma Divided(n: int, m: int) returns (q: int)
    requires m > 0
    ensures n == q * m + n % m && 0 <= n % m < m
  {
    q := n / m;
  }

  lemma RemainderIs(n: int, m: int, q: int, r: int)
    requires m > 0 && 0 <= r < m && n == q * m + r
    ensures n % m == r
  {
    var p := Divided(n, m);
    Unique(p, n % m, q, r, m);
  }

  /** Among `m` consecutive numbers no two leave the same remainder. */
  lemma SameRemainder(a: int, b: int, m: int)
    requires m > 0 && a <= b < a + m && a % m == b % m
    ensures a == b
  {
    var p := Divided(a, m);
    var q := Divided(b, m);
    if p < q {
      MulLess(p, q, m);
    } else if q < p {
      MulLess(q, p, m);
    }
  }

  lemma NextRemainder(n: int, m: int)
    requires m > 0
    ensures (n + 1) % m == (n % m + 1) % m && (n + m) % m == n % m
  {
    var q := Divided(n, m);
    var r := n % m;
    assert (q + 1) * m == q * m + m;
    RemainderIs(n + m, m, q + 1, r);
    if r + 1 == m {
      RemainderIs(n + 1, m, q + 1, 0);
      RemainderIs(r + 1, m, 1, 0);
    } else {
      RemainderIs(n + 1, m, q, r + 1);
      RemainderIs(r + 1, m, 0, r + 1);
    }
  }
}
