/** Every system of roots has one with a conjugation that inverts its roots: pairs, with the inverse
    roots in second place and swapping as conjugation. So nothing proved of real transforms is vacuous.
 */
module Twins {
  import opened Integers
  import opened Algebra
  import opened Roots
  import opened RealSpectrum

  function TwinRing<T>(r: Ring<T>): Ring<(T, T)> {
    Ring((r.zero, r.zero), (r.one, r.one), (a: (T, T)) => (r.neg(a.0), r.neg(a.1)),
      (p: ((T, T), (T, T))) => (r.add(p.0.0, p.1.0), r.add(p.0.1, p.1.1)),
      (p: ((T, T), (T, T))) => (r.mul(p.0.0, p.1.0), r.mul(p.0.1, p.1.1)))
  }

  function Twin<T>(u: Roots<T>): Roots<(T, T)> {
    Roots(TwinRing(u.ring), u.order, (p: (int, int)) => (u.w(p.0, p.1), u.w(p.0, -p.1)), (m: int) => (u.recip(m), u.recip(m)),
      (a: (T, T)) => (a.1, a.0), (u.w(4, 1), u.w(4, -1)))
  }

  lemma TwinIsRing<T(!new)>(r: Ring<T>)
    requires IsRing(r)
    ensures IsRing(TwinRing(r))
  {
    var s := TwinRing(r);
    forall a: (T, T), b: (T, T), c: (T, T) {:trigger At(a, b, c)} | At(a, b, c)
      ensures s.add(a, b) == s.add(b, a) && s.add(s.add(a, b), c) == s.add(a, s.add(b, c))
      ensures s.add(a, s.zero) == a && s.add(a, s.neg(a)) == s.zero
      ensures s.mul(a, b) == s.mul(b, a) && s.mul(s.mul(a, b), c) == s.mul(a, s.mul(b, c))
      ensures s.mul(a, s.one) == a && s.mul(a, s.add(b, c)) == s.add(s.mul(a, b), s.mul(a, c))
    {
      assert At(a.0, b.0, c.0) && At(a.1, b.1, c.1);
    }
  }

  lemma {:induction false} TwinSum<T(!new)>(r: Ring<T>, n: nat, f: int -> (T, T), g: int -> T, h: int -> T)
    requires forall i :: 0 <= i < n ==> f(i) == (g(i), h(i))
    ensures Sum(TwinRing(r), n, f) == (Sum(r, n, g), Sum(r, n, h))
  {
    if n > 0 { TwinSum(r, n - 1, f, g, h); }
  }

  lemma TwinExponents<T(!new)>(u: Roots<T>, n: pos, a: int, b: int)
    requires LawsAt(u, n, a, b) && LawsAt(u, n, -a, -b)
    ensures var v := Twin(u);
      && v.w(n, 0) == v.ring.one && v.w(n, a + b) == v.ring.mul(v.w(n, a), v.w(n, b)) && v.w(n, a + n * b) == v.w(n, a)
      && v.conj(v.w(n, a)) == v.w(n, -a)
  {
    assert -a + -b == -(a + b) && -a + n * -b == -(a + n * b);
    hide Sum, Powers, Times;
  }

  lemma TwinVanishes<T(!new)>(u: Roots<T>, n: pos, a: int)
    requires a % n != 0 ==> Sum(u.ring, n, Powers(u, n, a)) == u.ring.zero
    requires -a % n != 0 ==> Sum(u.ring, n, Powers(u, n, -a)) == u.ring.zero
    ensures a % n != 0 ==> Sum(Twin(u).ring, n, Powers(Twin(u), n, a)) == Twin(u).ring.zero
  {
    hide Sum;
    forall j | 0 <= j < n ensures Powers(Twin(u), n, a)(j) == (Powers(u, n, a)(j), Powers(u, n, -a)(j)) { assert j * -a == -(j * a); }
    TwinSum(u.ring, n, Powers(Twin(u), n, a), Powers(u, n, a), Powers(u, n, -a));
    Opposite(a, n);
  }

  lemma TwinRecip<T(!new)>(u: Roots<T>, n: pos)
    requires Times(u.ring, n, u.recip(n)) == u.ring.one
    ensures Times(Twin(u).ring, n, Twin(u).recip(n)) == Twin(u).ring.one
  {
    hide Sum;
    TwinSum(u.ring, n, Const(Twin(u).recip(n)), Const(u.recip(n)), Const(u.recip(n)));
  }

  lemma TwinLaws<T(!new)>(u: Roots<T>, n: pos, a: int, b: int)
    requires IsRoots(u) && Divides(n, u.order)
    ensures LawsAt(Twin(u), n, a, b)
  {
    assert Phases(n, n, a, b) && Phases(n, n, -a, -b);
    assert LawsAt(u, n, a, b) && LawsAt(u, n, -a, -b);
    hide IsRoots, Sum, Powers, Times, Twin;
    TwinExponents(u, n, a, b);
    TwinVanishes(u, n, a);
    TwinRecip(u, n);
  }

  lemma Opposite(a: int, n: pos)
    ensures a % n != 0 ==> -a % n != 0
  {
    if -a % n == 0 {
      assert -a == n * (-a / n);
      ModUnique(a, n, -(-a / n), 0);
    }
  }

  lemma TwinRefines<T(!new)>(u: Roots<T>, n: pos, m: pos, a: int)
    requires IsRoots(u) && Divides(n * m, u.order)
    ensures Refines(Twin(u), n, m, a)
  {
    WRefine(u, n, m, a);
    WRefine(u, n, m, -a);
    assert m * -a == -(m * a);
  }

  lemma TwinIsRoots<T(!new)>(u: Roots<T>)
    requires IsRoots(u)
    ensures IsRoots(Twin(u)) && IsConjugation(Twin(u)) && Twin(u).order == u.order
    ensures Divides(4, u.order) ==> HasImaginary(Twin(u))
  {
    var v := Twin(u);
    assert IsRing(u.ring);
    TwinIsRing(u.ring);
    hide IsRing, LawsAt, Refines, IsRoots;
    forall n: pos, a: int, b: int | Divides(n, v.order) ensures LawsAt(v, n, a, b) { TwinLaws(u, n, a, b); }
    forall n: pos, m: pos, a: int | Divides(n * m, v.order) ensures Refines(v, n, m, a) { TwinRefines(u, n, m, a); }
    assert IsRoots(v) by { RootsIntro(v); }
    if Divides(4, u.order) { FourthRootImaginary(v); }
  }

  lemma RootsIntro<T(!new)>(v: Roots<T>)
    requires IsRing(v.ring)
    requires forall n: pos, a: int, b: int :: Divides(n, v.order) ==> LawsAt(v, n, a, b)
    requires forall n: pos, m: pos, a: int :: Divides(n * m, v.order) ==> Refines(v, n, m, a)
    ensures IsRoots(v)
  {
    hide IsRing, LawsAt, Refines;
  }
}
