/** Facts about products, quotients and remainders of integers. */
module Integers {

  type pos = n: nat | n > 0 witness 1

  predicate Divides(n: pos, m: int) { m % n == 0 }

  /** The exponent of a term of a transform with sign d. */
  function Phase(d: int, j: int, k: int): int { d * (j * k) }

  function Mod(a: int, n: pos): int { a % n }

  function MulMod(a: int, b: int, n: pos): int { a * b % n }

  lemma ModSplit(a: int, n: pos)
    ensures a == Mod(a, n) + n * (a / n)
    ensures 0 <= Mod(a, n) < n
  {
  }

  lemma MulGrows(n: int, d: int)
    requires n > 0
    ensures d >= 1 ==> n * d >= n
    ensures d <= -1 ==> n * d <= -n
  {
  }

  lemma ModUnique(a: int, n: pos, q: int, m: int)
    requires a == n * q + m && 0 <= m < n
    ensures a % n == m && a / n == q
  {
    var d := q - a / n;
    assert n * d == a % n - m by { assert a == n * (a / n) + a % n; }
    MulGrows(n, d);
  }

  lemma Quotient(n: pos, m: int)
    requires Divides(n, m)
    ensures m == n * (m / n)
    ensures m > 0 ==> m / n > 0
  {
  }

  lemma ModShift(a: int, n: pos, t: int)
    ensures (a + n * t) % n == a % n
  {
    assert a + n * t == n * (a / n + t) + a % n;
    ModUnique(a + n * t, n, a / n + t, a % n);
  }

  lemma ModAdd(a: int, b: int, n: pos)
    ensures (a % n + b % n) % n == (a + b) % n
  {
    assert a + b == (a % n + b % n) + n * (a / n + b / n);
    ModShift(a % n + b % n, n, a / n + b / n);
  }

  lemma Exchange(a: int, b: int, c: int, d: int)
    ensures (a * b) * (c * d) == (a * c) * (b * d)
  {
    calc {
      (a * b) * (c * d);
      a * (b * (c * d));
      { assert b * (c * d) == c * (b * d); }
      a * (c * (b * d));
      (a * c) * (b * d);
    }
  }

  /** Divisors of a product divide what the product divides. */
  lemma DividesFactor(n: pos, m: pos, k: pos)
    requires Divides(n * m, k)
    ensures Divides(n, k) && Divides(m, k)
    ensures k / n == m * (k / (n * m)) && k / m == n * (k / (n * m))
  {
    var nm: pos := n * m;
    var c := k / nm;
    Quotient(nm, k);
    assert k == n * (m * c) + 0;
    ModUnique(k, n, m * c, 0);
    assert k == m * (n * c) + 0;
    ModUnique(k, m, n * c, 0);
  }

  lemma DivBound(q: int, w: pos, r: int)
    requires 0 <= q < w * r
    ensures 0 <= q / w < r && 0 <= q % w < w && q == q % w + w * (q / w)
  {
    MulGrows(w, q / w - r);
    assert w * (q / w - r) == w * (q / w) - w * r;
  }
}
