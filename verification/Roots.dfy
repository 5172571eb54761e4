/** The values exp(2 pi i a / n) that the library tabulates with cos and sin, by the laws
    they obey. Module PrincipalRoot builds them from any principal root of unity.
 */
module Roots {
  import opened Integers
  import opened Algebra

  /** w(n, a) stands for exp(2 pi i a / n) and recip(n) for 1 / n, where n is any divisor of
      order. conj is complex conjugation, which is only needed on the values of w, and im the
      imaginary unit, which only tables of pre-multiplied factors need.
   */
  datatype Roots<!T> = Roots(ring: Ring<T>, order: pos, root: ((int, int)) -> T, recip: int -> T, conj: T -> T, im: T) {
    function w(n: int, a: int): T { root((n, a)) }
  }

  function Powers<T>(u: Roots<T>, n: int, k: int): int -> T { j => u.w(n, j * k) }

  /** Names the arguments at which the laws of the roots are wanted. */
  ghost predicate Phases(n: pos, m: pos, a: int, b: int) { true }

  /** The laws at one divisor n of the order. */
  ghost predicate LawsAt<T>(u: Roots<T>, n: pos, a: int, b: int) {
    && u.w(n, 0) == u.ring.one
    && u.w(n, a + b) == u.ring.mul(u.w(n, a), u.w(n, b))
    && u.w(n, a + n * b) == u.w(n, a)
    && u.conj(u.w(n, a)) == u.w(n, -a)
    && (a % n != 0 ==> Sum(u.ring, n, Powers(u, n, a)) == u.ring.zero)
    && Times(u.ring, n, u.recip(n)) == u.ring.one
  }

  /** exp(2 pi i (m a) / (n m)) == exp(2 pi i a / n) */
  ghost predicate Refines<T>(u: Roots<T>, n: pos, m: pos, a: int) {
    u.w(n * m, m * a) == u.w(n, a)
  }

  ghost predicate IsRoots<T(!new)>(u: Roots<T>) {
    && IsRing(u.ring)
    && (forall n: pos, m: pos, a: int, b: int {:trigger Phases(n, m, a, b)} ::
      && (Divides(n, u.order) ==> LawsAt(u, n, a, b))
      && (Divides(n * m, u.order) ==> Refines(u, n, m, a)))
  }

  /** im is a square root of -1, and the one that is a quarter turn wherever there are fourth roots. */
  ghost predicate HasImaginary<T(!new)>(u: Roots<T>) {
    u.ring.mul(u.im, u.im) == u.ring.neg(u.ring.one) && (Divides(4, u.order) ==> u.im == u.w(4, 1))
  }

  lemma WZero<T(!new)>(u: Roots<T>, n: pos)
    requires IsRoots(u) && Divides(n, u.order)
    ensures u.w(n, 0) == u.ring.one
  {
    assert Phases(n, n, 0, 0);
  }

  lemma WAdd<T(!new)>(u: Roots<T>, n: pos, a: int, b: int)
    requires IsRoots(u) && Divides(n, u.order)
    ensures u.w(n, a + b) == u.ring.mul(u.w(n, a), u.w(n, b))
  {
    assert Phases(n, n, a, b);
  }

  /** A ring with fourth roots of unity has an imaginary unit: the first of them. */
  lemma FourthRootImaginary<T(!new)>(u: Roots<T>)
    requires IsRoots(u) && Divides(4, u.order) && u.im == u.w(4, 1)
    ensures HasImaginary(u)
  {
    var r := u.ring;
    assert Divides(2, u.order);
    WAdd(u, 4, 1, 1);
    WRefine(u, 2, 2, 1);
    Orthogonality(u, 2, 1);
    WZero(u, 2);
    assert IsRing(r);
    hide IsRoots, IsRing;
    var f := Powers(u, 2, 1);
    assert Sum(r, 2, f) == r.add(r.add(r.zero, f(0)), f(1)) by { assert Sum(r, 1, f) == r.add(r.zero, f(0)); }
    AddLaws(r, r.one, r.one, r.one);
    AddCancel(r, r.one, u.w(2, 1), r.neg(r.one));
  }

  lemma WPeriod<T(!new)>(u: Roots<T>, n: pos, a: int, t: int)
    requires IsRoots(u) && Divides(n, u.order)
    ensures u.w(n, a + n * t) == u.w(n, a)
  {
    assert Phases(n, n, a, t);
  }

  lemma WConj<T(!new)>(u: Roots<T>, n: pos, a: int)
    requires IsRoots(u) && Divides(n, u.order)
    ensures u.conj(u.w(n, a)) == u.w(n, -a)
  {
    assert Phases(n, n, a, a);
  }

  lemma WRefine<T(!new)>(u: Roots<T>, n: pos, m: pos, a: int)
    requires IsRoots(u) && Divides(n * m, u.order)
    ensures u.w(n * m, m * a) == u.w(n, a)
  {
    assert Phases(n, m, a, a);
  }

  lemma RecipInverts<T(!new)>(u: Roots<T>, n: pos)
    requires IsRoots(u) && Divides(n, u.order)
    ensures Times(u.ring, n, u.recip(n)) == u.ring.one
  {
    assert Phases(n, n, 0, 0);
  }

  /** Dividing by n after adding n copies gives the value back. */
  lemma RecipCancels<T(!new)>(u: Roots<T>, n: pos, x: T)
    requires IsRoots(u) && Divides(n, u.order)
    ensures Times(u.ring, n, u.ring.mul(x, u.recip(n))) == x
  {
    RecipInverts(u, n);
    TimesScale(u.ring, n, x, u.recip(n));
    MulLaws(u.ring, x, x, x);
  }

  /** The powers of w(n, 1) are orthogonal. */
  lemma Orthogonality<T(!new)>(u: Roots<T>, n: pos, k: int)
    requires IsRoots(u) && Divides(n, u.order)
    ensures Sum(u.ring, n, Powers(u, n, k)) ==
            if k % n == 0 then Times(u.ring, n, u.ring.one) else u.ring.zero
  {
    assert Phases(n, n, k, k);
    if k % n == 0 {
      forall j | 0 <= j < n ensures Powers(u, n, k)(j) == u.ring.one {
        assert j * k == 0 + n * (j * (k / n)) by { assert k == n * (k / n); }
        WPeriod(u, n, 0, j * (k / n));
        WZero(u, n);
      }
      SumExt(u.ring, n, Powers(u, n, k), Const(u.ring.one));
    }
  }
}
