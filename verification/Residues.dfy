/** The integers modulo a prime have a system of roots of every order dividing the prime less
    one, so nothing proved from the laws of the roots is vacuous.
 */
module Residues {
  import opened Integers
  import opened Algebra
  import opened Roots
  import opened PrincipalRoot
  import opened NumberTheory
  import opened Twiddle
  import opened Strategies
  import opened Planner

  type prime = p: int | Prime(p) witness 2

  /** An arbitrary prime: nothing below depends on which. */
  const MODULUS: prime

  type residue = x: int | 0 <= x < MODULUS witness 0

  function Residue(x: int): residue { x % MODULUS }

  function Minus(x: residue): residue { Residue(0 - x) }

  function Plus(p: (residue, residue)): residue { Residue(p.0 + p.1) }

  function Product(p: (residue, residue)): residue { Residue(p.0 * p.1) }

  function Field(): Ring<residue> { Ring(Residue(0), Residue(1), Minus, Plus, Product) }

  // ----- the ring

  lemma Congruent(x: int, y: int)
    requires Zero(MODULUS, y - x)
    ensures Residue(x) == Residue(y)
  {
    ModEqual(MODULUS, x, y);
  }

  lemma ReduceLeft(x: int, y: int)
    ensures Residue(Residue(x) + y) == Residue(x + y)
    ensures Residue(Residue(x) * y) == Residue(x * y)
  {
    ModCongruent(MODULUS, x);
    ZeroScale(MODULUS, x - Residue(x), y);
    assert (x - Residue(x)) * y == x * y - Residue(x) * y;
    Congruent(Residue(x) + y, x + y);
    Congruent(Residue(x) * y, x * y);
  }

  lemma ReduceSmall(x: residue)
    ensures Residue(x) == x
  {
    ModUnique(x, MODULUS, 0, x);
  }

  lemma Operations(a: residue, b: residue)
    ensures Field().add(a, b) == Residue(a + b)
    ensures Field().mul(a, b) == Residue(a * b)
    ensures Field().neg(a) == Residue(0 - a)
    ensures Field().zero == Residue(0) == 0 && Field().one == Residue(1) == 1
  {
    assert MODULUS > 1;
    hide Residue, Prime, Zero;
    ReduceSmall(0);
    ReduceSmall(1);
  }

  lemma Associates(a: int, b: int, c: int)
    ensures Residue(Residue(a + b) + c) == Residue(a + Residue(b + c))
    ensures Residue(Residue(a * b) * c) == Residue(a * Residue(b * c))
  {
    ReduceLeft(a + b, c);
    ReduceLeft(b + c, a);
    ReduceLeft(a * b, c);
    ReduceLeft(b * c, a);
    hide Residue;
    assert a * b * c == b * c * a;
    assert Residue(b * c) * a == a * Residue(b * c);
  }

  lemma SumAssociates(a: residue, b: residue, c: residue)
    ensures Field().add(a, b) == Field().add(b, a)
    ensures Field().add(Field().add(a, b), c) == Field().add(a, Field().add(b, c))
  {
    hide Field, Residue, Ring.add, Prime, Zero;
    Operations(a, b);
    Operations(b, a);
    Operations(Residue(a + b), c);
    Operations(b, c);
    Operations(a, Residue(b + c));
    Associates(a, b, c);
  }

  lemma SumInverts(a: residue)
    ensures Field().add(a, Field().zero) == a
    ensures Field().add(a, Field().neg(a)) == Field().zero
  {
    hide Field, Residue, Ring.add, Prime, Zero;
    Operations(a, 0);
    Operations(a, Residue(0 - a));
    ReduceLeft(0 - a, a);
    ReduceSmall(a);
  }

  lemma ProductLaws(a: residue, b: residue, c: residue)
    ensures Field().mul(a, b) == Field().mul(b, a)
    ensures Field().mul(Field().mul(a, b), c) == Field().mul(a, Field().mul(b, c))
    ensures Field().mul(a, Field().one) == a
  {
    hide Field, Residue, Ring.mul, Prime, Zero;
    Operations(a, b);
    Operations(b, a);
    Operations(Residue(a * b), c);
    Operations(b, c);
    Operations(a, Residue(b * c));
    Operations(a, 1);
    Associates(a, b, c);
    ReduceSmall(a);
  }

  lemma DistributiveLaw(a: residue, b: residue, c: residue)
    ensures var r := Field(); r.mul(a, r.add(b, c)) == r.add(r.mul(a, b), r.mul(a, c))
  {
    hide Field, Residue, Ring.add, Ring.mul, Prime, Zero;
    Operations(b, c);
    Operations(a, Residue(b + c));
    Operations(a, b);
    Operations(a, c);
    Operations(Residue(a * b), Residue(a * c));
    ReduceLeft(b + c, a);
    ReduceLeft(a * b, Residue(a * c));
    ReduceLeft(a * c, a * b);
    assert (b + c) * a == a * b + a * c;
    assert a * Residue(b + c) == Residue(b + c) * a;
  }

  lemma FieldIsRing()
    ensures IsRing(Field())
  {
    var r := Field();
    hide Field, Residue;
    forall a: residue, b: residue, c: residue {:trigger At(a, b, c)} | At(a, b, c)
      ensures r.add(a, b) == r.add(b, a)
      ensures r.add(r.add(a, b), c) == r.add(a, r.add(b, c))
      ensures r.add(a, r.zero) == a
      ensures r.add(a, r.neg(a)) == r.zero
      ensures r.mul(a, b) == r.mul(b, a)
      ensures r.mul(r.mul(a, b), c) == r.mul(a, r.mul(b, c))
      ensures r.mul(a, r.one) == a
      ensures r.mul(a, r.add(b, c)) == r.add(r.mul(a, b), r.mul(a, c))
    {
      SumAssociates(a, b, c);
      SumInverts(a);
      ProductLaws(a, b, c);
      DistributiveLaw(a, b, c);
    }
  }

  // ----- powers and sums of residues

  lemma {:induction false} PowResidue(x: int, k: nat)
    ensures Pow(Field(), Residue(x), k) == Residue(PowZ(x, k))
  {
    if k > 0 {
      PowResidue(x, k - 1);
      var y := PowZ(x, k - 1);
      ReduceLeft(x, Residue(y));
      ReduceLeft(y, x);
    }
  }

  /** 1 + x + ... + x^(n - 1) */
  function Geometric(x: int, n: nat): int {
    if n == 0 then 0 else Geometric(x, n - 1) + PowZ(x, n - 1)
  }

  lemma {:induction false} GeometricSum(x: int, n: nat)
    ensures (x - 1) * Geometric(x, n) == PowZ(x, n) - 1
  {
    if n > 0 {
      GeometricSum(x, n - 1);
      assert (x - 1) * (Geometric(x, n - 1) + PowZ(x, n - 1)) ==
             (x - 1) * Geometric(x, n - 1) + (x * PowZ(x, n - 1) - PowZ(x, n - 1));
    }
  }

  lemma {:induction false} SumOfPowers(x: int, n: nat, f: int -> residue)
    requires forall j {:trigger f(j)} :: 0 <= j < n ==> f(j) == Residue(PowZ(x, j))
    ensures Sum(Field(), n, f) == Residue(Geometric(x, n))
  {
    Operations(0, 0);
    hide Field, Residue;
    if n > 0 {
      SumOfPowers(x, n - 1, f);
      var s, y := Geometric(x, n - 1), PowZ(x, n - 1);
      Operations(Residue(s), Residue(y));
      ReduceLeft(s, Residue(y));
      ReduceLeft(y, s);
    }
  }

  lemma {:induction false} Multiple(n: nat, x: residue)
    ensures Times(Field(), n, x) == Residue(n * x)
  {
    if n > 0 {
      Multiple(n - 1, x);
      ReduceLeft((n - 1) * x, x);
      assert n * x == (n - 1) * x + x;
    }
  }

  // ----- a primitive root is a principal root of unity

  lemma ExpIsPower(g: int, n: pos, k: nat)
    requires One(MODULUS, g, n)
    ensures Exp(Field(), Residue(g), n, k) == Residue(PowZ(g, k))
  {
    FieldIsRing();
    PowResidue(g, n);
    Congruent(1, PowZ(g, n));
    PowOrder(Field(), Residue(g), n, k);
    PowResidue(g, k);
  }

  /** The powers of g^k add up to a multiple of the modulus. */
  lemma GeometricVanishes(g: int, n: pos, k: nat)
    requires IsOrder(MODULUS, g, n) && 0 < k < n
    ensures Zero(MODULUS, Geometric(PowZ(g, k), n))
  {
    var x := PowZ(g, k);
    assert !Zero(MODULUS, x - 1) by { assert !One(MODULUS, g, k); }
    OneMultiple(MODULUS, g, n, k);
    assert n * k == k * n;
    PowZMul(g, k, n);
    assert Zero(MODULUS, PowZ(x, n) - 1);
    hide *;
    GeometricSum(x, n);
    Euclid(MODULUS, x - 1, Geometric(x, n));
  }

  lemma PowersVanish(g: int, n: pos, k: nat)
    requires IsOrder(MODULUS, g, n) && 0 < k < n
    ensures Sum(Field(), n, ExpPowers(Field(), Residue(g), n, k)) == Field().zero
  {
    hide Field, Exp, Residue, Zero;
    var f, x := ExpPowers(Field(), Residue(g), n, k), PowZ(g, k);
    forall j | 0 <= j < n ensures f(j) == Residue(PowZ(x, j)) {
      assert j * k == k * j && 0 <= k * j;
      ExpIsPower(g, n, k * j);
      PowZMul(g, k, j);
    }
    hide ExpPowers, PowZ;
    SumOfPowers(x, n, f);
    GeometricVanishes(g, n, k);
    Congruent(0, Geometric(x, n));
    Operations(0, 0);
  }

  /** The square of -1 */
  lemma LastSquare(p: pos)
    requires p > 1
    ensures (p - 1) * (p - 1) % p == 1 % p
  {
    assert (p - 1) * (p - 1) == p * (p - 2) + 1;
    ModUnique((p - 1) * (p - 1), p, p - 2, 1);
    ModUnique(1, p, 0, 1);
  }

  lemma PrimitiveIsPrincipal(g: int)
    requires IsOrder(MODULUS, g, MODULUS - 1)
    ensures Principal(Field(), Residue(g), MODULUS - 1, MODULUS - 1)
  {
    var n := MODULUS - 1;
    assert One(MODULUS, g, n);
    LastSquare(MODULUS);
    assert Residue(n * n) == Residue(1);
    hide Field, Residue, Prime, Zero, IsOrder;
    Operations(0, 0);
    FieldIsRing();
    PowResidue(g, n);
    Congruent(1, PowZ(g, n));
    forall k | 0 < k < n ensures Sum(Field(), n, ExpPowers(Field(), Residue(g), n, k)) == Field().zero {
      PowersVanish(g, n, k);
    }
    Multiple(n, n);
  }

  /** The power with exponent two less than the modulus: the inverse of a nonzero residue. */
  function Reciprocal(x: residue): residue { Residue(PowZ(x, MODULUS - 2)) }

  lemma ReciprocalInverts(g: int, e: int)
    requires IsOrder(MODULUS, g, MODULUS - 1)
    ensures var x := Exp(Field(), Residue(g), MODULUS - 1, e); Field().mul(Reciprocal(x), x) == Field().one
  {
    var n, k := MODULUS - 1, e % (MODULUS - 1);
    var x := Exp(Field(), Residue(g), n, e);
    PowResidue(g, k);
    var y := PowZ(g, k);
    assert x == Residue(y);
    ModCongruent(MODULUS, y);
    PowZCongruent(MODULUS, y, x, n - 1);
    Congruent(PowZ(x, n - 1), PowZ(y, n - 1));
    assert Reciprocal(x) == Residue(PowZ(y, n - 1));
    ReduceLeft(PowZ(y, n - 1), x);
    ReduceLeft(y, PowZ(y, n - 1));
    OneMultiple(MODULUS, g, n, k);
    assert n * k == k * n;
    PowZMul(g, k, n);
    Congruent(1, PowZ(y, n));
  }

  /** There is a system of roots over the integers modulo a prime. */
  lemma RootsExist() returns (u: Roots<residue>)
    ensures IsRoots(u) && u.order == MODULUS - 1
    ensures u.ring == Field() && (Divides(4, u.order) ==> HasImaginary(u))
  {
    var g := PrimitiveRootExists(MODULUS);
    PrimitiveIsPrincipal(g);
    forall e {:trigger Exp(Field(), Residue(g), MODULUS - 1, e)} ensures Field().mul(Reciprocal(Exp(Field(), Residue(g), MODULUS - 1, e)),
                                 Exp(Field(), Residue(g), MODULUS - 1, e)) == Field().one
    {
      ReciprocalInverts(g, e);
    }
    u := FromRoot(Field(), Residue(g), MODULUS - 1, MODULUS - 1, Reciprocal);
    PrincipalGivesRoots(Field(), Residue(g), MODULUS - 1, MODULUS - 1, Reciprocal);
    if Divides(4, u.order) { FourthRootImaginary(u); }
  }

  // ----- planning over the residues

  /** The planner's requirements for length n can be met: a system of roots exists whenever every
      length up to 4 n divides the prime less one, as they all do for n = 3 and the prime 55441.
   */
  lemma PlanningIsPossible(n: pos, provider: Provider) returns (env: Env<residue>)
    requires IsProvider(provider)
    requires forall k: pos {:trigger Divides(k, MODULUS - 1)} :: k <= 4 * n ==> Divides(k, MODULUS - 1)
    ensures Ready(env, true, n) && env.provider == provider
  {
    var u := RootsExist();
    env := Env(u, provider);
    var quarter: pos := 4;
    assert Divides(quarter, MODULUS - 1);
    hide IsRoots, IsProvider, Divides;
  }
}
