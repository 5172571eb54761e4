/** Any principal root of unity in a commutative ring gives a system of roots. */
module PrincipalRoot {
  import opened Integers
  import opened Algebra
  import opened Roots

  /** omega^a for any integer a, where n is the order of omega. */
  function Exp<T>(r: Ring<T>, omega: T, n: pos, a: int): T {
    Pow(r, omega, a % n)
  }

  function ExpPowers<T>(r: Ring<T>, omega: T, n: pos, k: int): int -> T {
    j => Exp(r, omega, n, j * k)
  }

  /** omega is a principal root of unity of order n, and n is invertible. */
  ghost predicate Principal<T(!new)>(r: Ring<T>, omega: T, n: pos, recip: T) {
    && IsRing(r)
    && Pow(r, omega, n) == r.one
    && (forall k :: 0 < k < n ==> Sum(r, n, ExpPowers(r, omega, n, k)) == r.zero)
    && Times(r, n, recip) == r.one
  }

  function FromRoot<T>(r: Ring<T>, omega: T, n: pos, recip: T, conj: T -> T): Roots<T> {
    Roots(r, n,
      (p: (int, int)) => if p.0 > 0 then Exp(r, omega, n, (n / p.0) * p.1) else r.one,
      (m: int) => if m > 0 then Times(r, n / m, recip) else r.one,
      conj,
      if n % 4 == 0 then Exp(r, omega, n, n / 4) else r.one)
  }

  lemma {:induction false} PowOrder<T(!new)>(r: Ring<T>, omega: T, n: pos, a: nat)
    requires IsRing(r) && Pow(r, omega, n) == r.one
    ensures Pow(r, omega, a) == Exp(r, omega, n, a)
  {
    if a < n {
      ModUnique(a, n, 0, a);
    } else {
      PowOrder(r, omega, n, a - n);
      PowAdd(r, omega, n, a - n);
      MulLaws(r, Pow(r, omega, a - n), r.one, r.one);
      ModShift(a - n, n, 1);
    }
  }

  lemma ExpAdd<T(!new)>(r: Ring<T>, omega: T, n: pos, a: int, b: int)
    requires IsRing(r) && Pow(r, omega, n) == r.one
    ensures Exp(r, omega, n, a + b) == r.mul(Exp(r, omega, n, a), Exp(r, omega, n, b))
  {
    hide IsRing, Pow;
    ModAdd(a, b, n);
    PowAdd(r, omega, a % n, b % n);
    PowOrder(r, omega, n, a % n + b % n);
  }

  lemma ExpPeriod<T(!new)>(r: Ring<T>, omega: T, n: pos, a: int, t: int)
    ensures Exp(r, omega, n, a + n * t) == Exp(r, omega, n, a)
  {
    ModShift(a, n, t);
  }

  // ----- vanishing sums of powers of omega^(n/m)

  lemma PhaseNonzero(m: pos, c: pos, k: int)
    requires k % m != 0
    ensures (c * k) % (m * c) != 0
  {
    var q := (c * k) / (m * c);
    if (c * k) % (m * c) == 0 {
      assert c * k == (m * c) * q;
      assert c * (k - m * q) == 0;
      assert k == m * q + 0;
      ModUnique(k, m, q, 0);
    }
  }

  lemma PhaseProduct(c: int, j: int, k: int, e: int, n: int, q: int)
    requires c * k == e + n * q
    ensures c * (j * k) == j * e + n * (j * q)
  {
    calc {
      c * (j * k);
      j * (c * k);
      j * (e + n * q);
      j * e + n * (j * q);
    }
  }

  /** A sum over 0..n of a function with period m, a divisor of n. */
  lemma SumPeriodic<T(!new)>(r: Ring<T>, n: pos, m: pos, f: int -> T)
    requires IsRing(r) && Divides(m, n)
    requires forall j, t :: 0 <= j < m && 0 <= t ==> f(Ix(m, j, t)) == f(j)
    ensures Sum(r, n, f) == Times(r, n / m, Sum(r, m, f))
  {
    var c := n / m;
    var rows := RowSums(r, m, f);
    Quotient(m, n);
    SumRows(r, m, c, f);
    forall t | 0 <= t < c ensures rows(t) == Sum(r, m, f) {
      SumExt(r, m, IxRow(m, f, t), f);
    }
    SumExt(r, c, rows, Const(Sum(r, m, f)));
  }

  /** m x == 0 only for x == 0 */
  lemma TimesInjective<T(!new)>(r: Ring<T>, m: pos, c: T, x: T)
    requires IsRing(r) && Times(r, m, c) == r.one
    requires Times(r, m, x) == r.zero
    ensures x == r.zero
  {
    MulLaws(r, x, c, c);
    TimesScale(r, m, x, c);
    TimesScale(r, m, c, x);
    MulLaws(r, x, x, x);
    MulZero(r, c);
  }

  lemma RecipDivisor<T(!new)>(r: Ring<T>, n: pos, m: pos, recip: T)
    requires IsRing(r) && Times(r, n, recip) == r.one && Divides(m, n)
    ensures Times(r, m, Times(r, n / m, recip)) == r.one
  {
    Quotient(m, n);
    TimesMul(r, m, n / m, recip);
  }

  function Strided<T>(r: Ring<T>, omega: T, n: pos, c: int, k: int): int -> T {
    j => Exp(r, omega, n, c * (j * k))
  }

  lemma StridedPeriod<T(!new)>(r: Ring<T>, omega: T, n: pos, m: pos, c: pos, k: int)
    requires n == m * c
    ensures forall j, t :: 0 <= j < m && 0 <= t ==>
      Strided(r, omega, n, c, k)(Ix(m, j, t)) == Strided(r, omega, n, c, k)(j)
  {
    hide Exp;
    forall j, t | 0 <= j < m && 0 <= t
      ensures Strided(r, omega, n, c, k)(Ix(m, j, t)) == Strided(r, omega, n, c, k)(j)
    {
      assert c * ((j + m * t) * k) == c * (j * k) + n * (t * k) by {
        assert (j + m * t) * k == j * k + m * (t * k);
      }
      ExpPeriod(r, omega, n, c * (j * k), t * k);
    }
  }

  lemma StridedVanishes<T(!new)>(r: Ring<T>, omega: T, n: pos, recip: T, m: pos, c: pos, k: int)
    requires Principal(r, omega, n, recip) && n == m * c && k % m != 0
    ensures Sum(r, m, Strided(r, omega, n, c, k)) == r.zero
  {
    hide Exp;
    var f := Strided(r, omega, n, c, k);
    PhaseNonzero(m, c, k);
    var e, q := c * k % n, c * k / n;
    forall j | 0 <= j < n ensures ExpPowers(r, omega, n, e)(j) == f(j) {
      PhaseProduct(c, j, k, e, n, q);
      ExpPeriod(r, omega, n, j * e, j * q);
    }
    SumExt(r, n, ExpPowers(r, omega, n, e), f);
    StridedPeriod(r, omega, n, m, c, k);
    ModUnique(n, m, c, 0);
    ModUnique(n, c, m, 0);
    SumPeriodic(r, n, m, f);
    RecipDivisor(r, n, c, recip);
    TimesInjective(r, c, Times(r, n / c, recip), Sum(r, m, f));
  }

  // ----- the laws

  lemma PhaseMultiples(c: int, m: int, a: int, b: int)
    ensures c * (a + b) == c * a + c * b
    ensures c * (a + m * b) == c * a + (m * c) * b
    ensures c * -a == -(c * a)
  {
    assert c * (m * b) == (m * c) * b;
  }

  lemma DivisorLaws<T(!new)>(r: Ring<T>, omega: T, n: pos, recip: T, conj: T -> T, m: pos, c: pos, a: int, b: int)
    requires Principal(r, omega, n, recip) && n == m * c
    requires forall e :: r.mul(conj(Exp(r, omega, n, e)), Exp(r, omega, n, e)) == r.one
    ensures Exp(r, omega, n, c * (a + b)) == r.mul(Exp(r, omega, n, c * a), Exp(r, omega, n, c * b))
    ensures Exp(r, omega, n, c * (a + m * b)) == Exp(r, omega, n, c * a)
    ensures conj(Exp(r, omega, n, c * a)) == Exp(r, omega, n, c * -a)
  {
    var x, y := Exp(r, omega, n, c * a), Exp(r, omega, n, -(c * a));
    var z := conj(x);
    assert Exp(r, omega, n, 0) == r.one by { ModUnique(0, n, 0, 0); }
    hide Exp;
    PhaseMultiples(c, m, a, b);
    ExpAdd(r, omega, n, c * a, c * b);
    ExpPeriod(r, omega, n, c * a, b);
    ExpAdd(r, omega, n, c * a, -(c * a));
    MulLaws(r, z, x, y);
    MulLaws(r, z, z, z);
    MulLaws(r, y, y, y);
  }

  /** The laws of the roots at a divisor m of n. */
  lemma DivisorRoots<T(!new)>(r: Ring<T>, omega: T, n: pos, recip: T, conj: T -> T, m: pos, a: int, b: int)
    requires Principal(r, omega, n, recip) && Divides(m, n)
    requires forall e :: r.mul(conj(Exp(r, omega, n, e)), Exp(r, omega, n, e)) == r.one
    ensures LawsAt(FromRoot(r, omega, n, recip, conj), m, a, b)
  {
    var u := FromRoot(r, omega, n, recip, conj);
    var c := n / m;
    Quotient(m, n);
    assert Exp(r, omega, n, 0) == r.one by { ModUnique(0, n, 0, 0); }
    hide Exp;
    DivisorLaws(r, omega, n, recip, conj, m, c, a, b);
    RecipDivisor(r, n, m, recip);
    if a % m != 0 {
      StridedVanishes(r, omega, n, recip, m, c, a);
      SumExt(r, m, Strided(r, omega, n, c, a), Powers(u, m, a));
    }
  }

  lemma RefineRoots<T(!new)>(r: Ring<T>, omega: T, n: pos, recip: T, conj: T -> T, m: pos, k: pos, a: int)
    requires Divides(m * k, n)
    ensures Refines(FromRoot(r, omega, n, recip, conj), m, k, a)
  {
    hide Exp;
    DividesFactor(m, k, n);
    var c := n / (m * k);
    assert c * (k * a) == (k * c) * a;
  }

  /** A principal root of unity, with conjugation inverting its powers, is a system of roots. */
  lemma PrincipalGivesRoots<T(!new)>(r: Ring<T>, omega: T, n: pos, recip: T, conj: T -> T)
    requires Principal(r, omega, n, recip)
    requires forall e :: r.mul(conj(Exp(r, omega, n, e)), Exp(r, omega, n, e)) == r.one
    ensures IsRoots(FromRoot(r, omega, n, recip, conj))
  {
    var u := FromRoot(r, omega, n, recip, conj);
    assert u.ring == r && u.order == n;
    hide FromRoot, Exp, LawsAt, Refines, Divides;
    forall m: pos, a: int, b: int | Divides(m, n) ensures LawsAt(u, m, a, b) {
      DivisorRoots(r, omega, n, recip, conj, m, a, b);
    }
    forall m: pos, k: pos, a: int | Divides(m * k, n) ensures Refines(u, m, k, a) {
      RefineRoots(r, omega, n, recip, conj, m, k, a);
    }
  }
}
