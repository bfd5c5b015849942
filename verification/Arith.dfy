/** Facts about products, quotients and remainders that the other modules share. */
module Arith {

  lemma MulAtLeast(a: int, s: int)
    requires a >= 1 && s >= 0
    ensures a * s >= s
  {
    assert (a - 1) * s >= 0;
  }

  lemma MulMonotone(a: nat, b: nat, s: nat)
    requires a <= b
    ensures a * s <= b * s
  {
    assert (b - a) * s >= 0;
  }

  /** Quotient and remainder are unique. */
  lemma DivUnique(q: int, r: int, q': int, r': int, s: int)
    requires 0 <= r < s && 0 <= r' < s && q * s + r == q' * s + r'
    ensures r == r' && q == q'
  {
    if q > q' {
      MulAtLeast(q - q', s);
    } else if q < q' {
      MulAtLeast(q' - q, s);
    }
  }

  /** x is q times s and r more. */
  lemma DivIs(x: int, q: int, r: int, s: int)
    requires 0 <= r < s && x == q * s + r
    ensures x / s == q && x % s == r
  {
    DivUnique(x / s, x % s, q, r, s);
  }

  lemma DivDiv(n: nat, a: nat, b: nat)
    requires a > 0 && b > 0
    ensures a * b > 0 && n / a / b == n / (a * b)
  {
    var q, r, t := n / a / b, n / a % b, n % a;
    MulMonotone(r + 1, b, a);
    assert a * b == b * a && q * (a * b) == (q * b) * a;
    assert n == (q * b + r) * a + t;
    assert (q * b + r) * a == (q * b) * a + r * a;
    DivIs(n, q, r * a + t, a * b);
  }

  /** n & TARGET_PAGE_MASK, for pages of any size */
  function AlignDown(n: nat, page: nat): (r: nat)
    requires page > 0
    ensures r <= n && r % page == 0 && r == n / page * page
  {
    DivIs(n - n % page, n / page, 0, page);
    n / page * page
  }

  function Min(a: nat, b: nat): nat { if a < b then a else b }
}
