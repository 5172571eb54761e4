/** Commutative rings, powers and finite sums over them.

    The library computes on complex floats. Everything here is stated over an
    arbitrary commutative ring instead, so the results hold for exact complex
    arithmetic and for every other ring with a suitable root of unity.
 */
module Algebra {

  datatype Ring<!T> = Ring(zero: T, one: T, neg: T -> T, plus: ((T, T)) -> T, times: ((T, T)) -> T) {
    function add(a: T, b: T): T { plus((a, b)) }

    function mul(a: T, b: T): T { times((a, b)) }
  }

  /** Names the elements at which the ring laws are wanted. */
  ghost predicate At<T>(a: T, b: T, c: T) { true }

  ghost predicate IsRing<T(!new)>(r: Ring<T>) {
    forall a, b, c {:trigger At(a, b, c)} :: At(a, b, c) ==>
      && r.add(a, b) == r.add(b, a)
      && r.add(r.add(a, b), c) == r.add(a, r.add(b, c))
      && r.add(a, r.zero) == a
      && r.add(a, r.neg(a)) == r.zero
      && r.mul(a, b) == r.mul(b, a)
      && r.mul(r.mul(a, b), c) == r.mul(a, r.mul(b, c))
      && r.mul(a, r.one) == a
      && r.mul(a, r.add(b, c)) == r.add(r.mul(a, b), r.mul(a, c))
  }

  // ----- consequences of the laws

  lemma AddLaws<T(!new)>(r: Ring<T>, a: T, b: T, c: T)
    requires IsRing(r)
    ensures r.add(a, b) == r.add(b, a)
    ensures r.add(r.add(a, b), c) == r.add(a, r.add(b, c))
    ensures r.add(a, r.zero) == a == r.add(r.zero, a)
    ensures r.add(a, r.neg(a)) == r.zero
  {
    assert At(a, b, c);
    assert At(r.zero, a, a);
  }

  lemma MulLaws<T(!new)>(r: Ring<T>, a: T, b: T, c: T)
    requires IsRing(r)
    ensures r.mul(a, b) == r.mul(b, a)
    ensures r.mul(r.mul(a, b), c) == r.mul(a, r.mul(b, c))
    ensures r.mul(a, r.one) == a == r.mul(r.one, a)
  {
    assert At(a, b, c);
    assert At(r.one, a, a);
  }

  lemma Distributes<T(!new)>(r: Ring<T>, a: T, b: T, c: T)
    requires IsRing(r)
    ensures r.mul(a, r.add(b, c)) == r.add(r.mul(a, b), r.mul(a, c))
    ensures r.mul(r.add(b, c), a) == r.add(r.mul(b, a), r.mul(c, a))
  {
    assert At(a, b, c);
    MulLaws(r, a, b, c);
    MulLaws(r, a, c, c);
    MulLaws(r, a, r.add(b, c), c);
  }

  /** (a + b) + (c + d) == (a + c) + (b + d) */
  lemma AddExchange<T(!new)>(r: Ring<T>, a: T, b: T, c: T, d: T)
    requires IsRing(r)
    ensures r.add(r.add(a, b), r.add(c, d)) == r.add(r.add(a, c), r.add(b, d))
  {
    AddLaws(r, a, b, r.add(c, d));
    AddLaws(r, b, c, d);
    AddLaws(r, c, b, d);
    AddLaws(r, a, c, r.add(b, d));
  }

  /** (a * b) * (c * d) == (a * c) * (b * d) */
  lemma MulExchange<T(!new)>(r: Ring<T>, a: T, b: T, c: T, d: T)
    requires IsRing(r)
    ensures r.mul(r.mul(a, b), r.mul(c, d)) == r.mul(r.mul(a, c), r.mul(b, d))
  {
    MulLaws(r, a, b, r.mul(c, d));
    MulLaws(r, b, c, d);
    MulLaws(r, c, b, d);
    MulLaws(r, a, c, r.mul(b, d));
  }

  lemma MulZero<T(!new)>(r: Ring<T>, a: T)
    requires IsRing(r)
    ensures r.mul(a, r.zero) == r.zero == r.mul(r.zero, a)
  {
    var z := r.mul(a, r.zero);
    AddLaws(r, r.zero, r.zero, r.zero);
    Distributes(r, a, r.zero, r.zero);
    assert z == r.add(z, z);
    AddLaws(r, z, z, r.neg(z));
    AddLaws(r, z, r.zero, r.zero);
    MulLaws(r, a, r.zero, r.zero);
  }

  lemma AddCancel<T(!new)>(r: Ring<T>, a: T, b: T, c: T)
    requires IsRing(r)
    requires r.add(a, b) == r.add(a, c)
    ensures b == c
  {
    var n := r.neg(a);
    AddLaws(r, a, n, n);
    AddLaws(r, n, a, b);
    AddLaws(r, n, a, c);
    AddLaws(r, b, b, b);
    AddLaws(r, c, c, c);
  }

  // ----- powers

  function Pow<T>(r: Ring<T>, a: T, n: nat): T {
    if n == 0 then r.one else r.mul(a, Pow(r, a, n - 1))
  }

  lemma {:induction false} PowAdd<T(!new)>(r: Ring<T>, a: T, m: nat, n: nat)
    requires IsRing(r)
    ensures Pow(r, a, m + n) == r.mul(Pow(r, a, m), Pow(r, a, n))
  {
    if m == 0 {
      MulLaws(r, Pow(r, a, n), r.one, r.one);
    } else {
      PowAdd(r, a, m - 1, n);
      MulLaws(r, a, Pow(r, a, m - 1), Pow(r, a, n));
    }
  }

  lemma {:induction false} PowOne<T(!new)>(r: Ring<T>, n: nat)
    requires IsRing(r)
    ensures Pow(r, r.one, n) == r.one
  {
    MulLaws(r, r.one, r.one, r.one);
    if n > 0 { PowOne(r, n - 1); }
  }

  lemma {:induction false} PowMul<T(!new)>(r: Ring<T>, a: T, m: nat, n: nat)
    requires IsRing(r)
    ensures Pow(r, a, m * n) == Pow(r, Pow(r, a, m), n)
  {
    if n == 0 {
    } else {
      PowMul(r, a, m, n - 1);
      assert m * n == m + m * (n - 1);
      PowAdd(r, a, m, m * (n - 1));
    }
  }

  // ----- finite sums

  /** f(0) + f(1) + ... + f(n - 1) */
  function Sum<T>(r: Ring<T>, n: nat, f: int -> T): T {
    if n == 0 then r.zero else r.add(Sum(r, n - 1, f), f(n - 1))
  }

  lemma {:induction false} SumExt<T(!new)>(r: Ring<T>, n: nat, f: int -> T, g: int -> T)
    requires forall i :: 0 <= i < n ==> f(i) == g(i)
    ensures Sum(r, n, f) == Sum(r, n, g)
  {
    if n > 0 { SumExt(r, n - 1, f, g); }
  }

  lemma {:induction false} SumZero<T(!new)>(r: Ring<T>, n: nat, f: int -> T)
    requires IsRing(r)
    requires forall i :: 0 <= i < n ==> f(i) == r.zero
    ensures Sum(r, n, f) == r.zero
  {
    AddLaws(r, r.zero, r.zero, r.zero);
    if n > 0 { SumZero(r, n - 1, f); }
  }

  lemma {:induction false} SumAdd<T(!new)>(r: Ring<T>, n: nat, f: int -> T, g: int -> T)
    requires IsRing(r)
    ensures Sum(r, n, i => r.add(f(i), g(i))) == r.add(Sum(r, n, f), Sum(r, n, g))
  {
    if n == 0 {
      AddLaws(r, r.zero, r.zero, r.zero);
    } else {
      SumAdd(r, n - 1, f, g);
      AddExchange(r, Sum(r, n - 1, f), Sum(r, n - 1, g), f(n - 1), g(n - 1));
    }
  }

  lemma {:induction false} SumScale<T(!new)>(r: Ring<T>, n: nat, c: T, f: int -> T)
    requires IsRing(r)
    ensures Sum(r, n, i => r.mul(c, f(i))) == r.mul(c, Sum(r, n, f))
  {
    if n == 0 {
      MulZero(r, c);
    } else {
      SumScale(r, n - 1, c, f);
      Distributes(r, c, Sum(r, n - 1, f), f(n - 1));
    }
  }

  /** All terms but the one at k vanish. */
  lemma {:induction false} SumSingle<T(!new)>(r: Ring<T>, n: nat, k: int, f: int -> T)
    requires IsRing(r)
    requires 0 <= k < n
    requires forall i :: 0 <= i < n && i != k ==> f(i) == r.zero
    ensures Sum(r, n, f) == f(k)
  {
    AddLaws(r, f(k), f(k), f(k));
    if k == n - 1 {
      SumZero(r, n - 1, f);
    } else {
      SumSingle(r, n - 1, k, f);
    }
  }

  lemma {:induction false} SumSplit<T(!new)>(r: Ring<T>, m: nat, n: nat, f: int -> T)
    requires IsRing(r)
    ensures Sum(r, m + n, f) == r.add(Sum(r, m, f), Sum(r, n, i => f(m + i)))
  {
    var g := i => f(m + i);
    if n == 0 {
      AddLaws(r, Sum(r, m, f), r.zero, r.zero);
    } else {
      SumSplit(r, m, n - 1, f);
      AddLaws(r, Sum(r, m, f), Sum(r, n - 1, g), g(n - 1));
    }
  }

  /** Column j of a table of terms d(i)(j). */
  function Col<T>(d: int -> int -> T, j: int): int -> T { i => d(i)(j) }

  /** Adding a table by rows or by columns gives the same total. */
  lemma {:induction false} SumTable<T(!new)>(r: Ring<T>, m: nat, n: nat, d: int -> int -> T, f: int -> T, g: int -> T)
    requires IsRing(r)
    requires forall i :: 0 <= i < m ==> f(i) == Sum(r, n, d(i))
    requires forall j :: 0 <= j < n ==> g(j) == Sum(r, m, Col(d, j))
    ensures Sum(r, m, f) == Sum(r, n, g)
  {
    if m == 0 {
      SumZero(r, n, g);
    } else {
      var h := j => Sum(r, m - 1, Col(d, j));
      SumTable(r, m - 1, n, d, f, h);
      SumAdd(r, n, h, d(m - 1));
      SumExt(r, n, g, j => r.add(h(j), d(m - 1)(j)));
    }
  }

  /** Position j of row t in a table with rows of length m. */
  function Ix(m: int, j: int, t: int): int { j + m * t }

  function IxRow<T>(m: int, f: int -> T, t: int): int -> T { j => f(Ix(m, j, t)) }

  lemma SumLastRow<T(!new)>(r: Ring<T>, m: nat, t: nat, f: int -> T)
    requires IsRing(r)
    ensures Sum(r, m * t + m, f) == r.add(Sum(r, m * t, f), Sum(r, m, IxRow(m, f, t)))
  {
    SumSplit(r, m * t, m, f);
    assert forall i {:trigger Ix(m, i, t)} :: m * t + i == Ix(m, i, t);
    SumExt(r, m, i => f(m * t + i), IxRow(m, f, t));
  }

  function RowSums<T>(r: Ring<T>, m: nat, f: int -> T): int -> T { t => Sum(r, m, IxRow(m, f, t)) }

  /** A sum over 0..m*n arranged as rows of length m. */
  lemma {:induction false} SumRows<T(!new)>(r: Ring<T>, m: nat, n: nat, f: int -> T)
    requires IsRing(r)
    ensures Sum(r, m * n, f) == Sum(r, n, RowSums(r, m, f))
  {
    if n == 0 {
    } else {
      SumRows(r, m, n - 1, f);
      assert m * n == m * (n - 1) + m;
      SumLastRow(r, m, n - 1, f);
    }
  }

  /** p and q are inverse permutations of 0..n. */
  ghost predicate Inverse(n: nat, p: int -> int, q: int -> int) {
    && (forall i :: 0 <= i < n ==> 0 <= p(i) < n && q(p(i)) == i)
    && (forall k :: 0 <= k < n ==> 0 <= q(k) < n && p(q(k)) == k)
  }

  function Compose<T>(f: int -> T, p: int -> int): int -> T { i => f(p(i)) }

  /** Reordering the terms does not change a sum. */
  lemma SumReorder<T(!new)>(r: Ring<T>, n: nat, p: int -> int, q: int -> int, f: int -> T)
    requires IsRing(r) && Inverse(n, p, q)
    ensures Sum(r, n, Compose(f, p)) == Sum(r, n, f)
  {
    var d := (i: int) => (k: int) => if p(i) == k then f(k) else r.zero;
    forall i | 0 <= i < n ensures Compose(f, p)(i) == Sum(r, n, d(i)) {
      SumSingle(r, n, p(i), d(i));
    }
    forall k | 0 <= k < n ensures f(k) == Sum(r, n, Col(d, k)) {
      SumSingle(r, n, q(k), Col(d, k));
    }
    SumTable(r, n, n, d, Compose(f, p), f);
  }

  lemma SumScaleRight<T(!new)>(r: Ring<T>, n: nat, f: int -> T, c: T, g: int -> T)
    requires IsRing(r)
    requires forall i :: 0 <= i < n ==> g(i) == r.mul(f(i), c)
    ensures r.mul(Sum(r, n, f), c) == Sum(r, n, g)
  {
    SumScale(r, n, c, f);
    MulLaws(r, c, Sum(r, n, f), c);
    forall i | 0 <= i < n ensures r.mul(c, f(i)) == g(i) { MulLaws(r, c, f(i), c); }
    SumExt(r, n, i => r.mul(c, f(i)), g);
  }

  // ----- multiples

  function Const<T>(x: T): int -> T { _ => x }

  /** n times x */
  function Times<T>(r: Ring<T>, n: nat, x: T): T {
    Sum(r, n, Const(x))
  }

  lemma TimesAdd<T(!new)>(r: Ring<T>, m: nat, n: nat, x: T)
    requires IsRing(r)
    ensures Times(r, m + n, x) == r.add(Times(r, m, x), Times(r, n, x))
  {
    SumSplit(r, m, n, Const(x));
    SumExt(r, n, i => Const(x)(m + i), Const(x));
  }

  lemma {:induction false} TimesMul<T(!new)>(r: Ring<T>, m: nat, n: nat, x: T)
    requires IsRing(r)
    ensures Times(r, m * n, x) == Times(r, m, Times(r, n, x))
  {
    if m == 0 {
    } else {
      TimesMul(r, m - 1, n, x);
      assert m * n == (m - 1) * n + n;
      TimesAdd(r, (m - 1) * n, n, x);
    }
  }

  lemma TimesScale<T(!new)>(r: Ring<T>, n: nat, c: T, x: T)
    requires IsRing(r)
    ensures Times(r, n, r.mul(c, x)) == r.mul(c, Times(r, n, x))
  {
    SumScale(r, n, c, Const(x));
    SumExt(r, n, i => r.mul(c, Const(x)(i)), Const(r.mul(c, x)));
  }
}
