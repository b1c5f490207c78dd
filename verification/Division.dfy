/** Facts about quotients and remainders. */
module Division {
  lemma ModSmall(v: int, m: int)
    requires 0 <= v < m
    ensures v % m == v
  {}

  lemma MulAtLeast(k: int, m: int)
    requires k >= 1 && m > 0
    ensures k * m >= m
  {}

  lemma DivUnique(a: int, m: int, q: int, r: int)
    requires m > 0 && 0 <= r < m && a == q * m + r
    ensures a / m == q && a % m == r
  {
    var q' := a / m;
    assert (q - q') * m == a % m - r;
    if q > q' { MulAtLeast(q - q', m); }
    if q < q' { MulAtLeast(q' - q, m); }
  }

  lemma ModAddMultiple(n: int, k: int, m: int)
    requires m > 0
    ensures (n + k * m) % m == n % m
  {
    var q := n / m;
    assert n + k * m == (q + k) * m + n % m;
    DivUnique(n + k * m, m, q + k, n % m);
  }

  lemma DivDiv(n: nat, a: nat, b: nat)
    requires a > 0 && b > 0
    ensures n / a / b == n / (a * b)
  {
    var q, t := n / a, n % a;
    var r, s := q / b, q % b;
    Regroup(r, b, s, a);
    MulMono(s, b - 1, a);
    assert n == q * a + t;
    DivUnique(n, a * b, r, s * a + t);
  }

  lemma Regroup(r: int, b: int, s: int, a: int)
    ensures (r * b + s) * a == r * (a * b) + s * a
    ensures (b - 1) * a == a * b - a
  {}

  lemma MulMono(x: int, y: int, a: int)
    requires x <= y && a >= 0
    ensures x * a <= y * a
  {}

  /** Dividing is comparing with multiples. */
  lemma Quotient(v: int, m: int, k: int)
    requires m > 0
    ensures k * m <= v <==> k <= v / m
  {
    MultiplesBelow(v, m, v / m, v % m, k);
  }

  lemma MultiplesBelow(v: int, m: int, q: int, r: int, k: int)
    requires 0 <= r < m && v == q * m + r
    ensures k * m <= v <==> k <= q
  {
    if k <= q { MulMono(k, q, m); } else { MulMono(q + 1, k, m); }
  }
}
