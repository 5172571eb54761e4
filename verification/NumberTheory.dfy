/** Prime moduli: Euclid's lemma, orders of residues, roots of polynomials, and the
    existence of a primitive root.
 */
module NumberTheory {
  import opened Integers

  predicate Prime(p: int) {
    p >= 2 && forall d :: 2 <= d < p ==> !Zero(d, p)
  }

  /** m divides a (m positive). */
  predicate Zero(m: int, a: int) { m > 0 && a % m == 0 }

  // ----- divisibility

  lemma ZeroIntro(m: pos, q: int)
    ensures Zero(m, m * q) && Zero(m, q * m)
  {
    ModUnique(m * q, m, q, 0);
  }

  lemma ZeroElim(m: pos, a: int) returns (q: int)
    requires Zero(m, a)
    ensures a == m * q
  {
    q := a / m;
  }

  lemma ZeroCombine(m: pos, a: int, b: int, x: int, y: int)
    requires Zero(m, a) && Zero(m, b)
    ensures Zero(m, a * x + b * y)
  {
    var s := ZeroElim(m, a);
    var t := ZeroElim(m, b);
    calc {
      a * x + b * y;
      (m * s) * x + (m * t) * y;
      m * (s * x) + m * (t * y);
      m * (s * x + t * y);
    }
    ZeroIntro(m, s * x + t * y);
  }

  lemma ZeroScale(m: pos, a: int, x: int)
    requires Zero(m, a)
    ensures Zero(m, a * x) && Zero(m, x * a)
  {
    ZeroCombine(m, a, a, x, 0);
  }

  lemma ZeroSmall(m: pos, a: int)
    requires Zero(m, a) && a < m && 0 < a + m
    ensures a == 0
  {
    var q := ZeroElim(m, a);
    MulGrows(m, q);
  }

  lemma ZeroTrans(a: pos, b: pos, c: int)
    requires Zero(a, b) && Zero(b, c)
    ensures Zero(a, c)
  {
    var s := ZeroElim(a, b);
    var t := ZeroElim(b, c);
    assert c == a * (s * t);
    ZeroIntro(a, s * t);
  }

  /** The least positive m with p | a m divides every such m. */
  lemma LeastMultiplier(p: pos, a: int, m: pos, b: int)
    requires Zero(p, a * m) && forall k :: 0 < k < m ==> !Zero(p, a * k)
    requires Zero(p, a * b)
    ensures Zero(m, b)
  {
    var q, r := b / m, b % m;
    assert b == m * q + r;
    assert a * r == (a * b) * 1 + (a * m) * -q by {
      assert a * (m * q + r) == (a * m) * q + a * r;
    }
    ZeroCombine(p, a * b, a * m, 1, -q);
    assert Zero(p, a * r);
    ZeroIntro(m, q);
  }

  /** The least positive k up to n at which p | a k. */
  lemma FindMultiplier(p: pos, a: int, n: pos) returns (m: pos)
    requires Zero(p, a * n)
    ensures Zero(p, a * m) && forall k :: 0 < k < m ==> !Zero(p, a * k)
    decreases n
  {
    if k :| 0 < k < n && Zero(p, a * k) {
      m := FindMultiplier(p, a, k);
    } else {
      m := n;
    }
  }

  /** Euclid's lemma. */
  lemma Euclid(p: int, a: int, b: int)
    requires Prime(p) && Zero(p, a * b)
    ensures Zero(p, a) || Zero(p, b)
  {
    ZeroIntro(p, a);
    var m := FindMultiplier(p, a, p);
    LeastMultiplier(p, a, m, p);
    LeastMultiplier(p, a, m, b);
    var q := ZeroElim(m, p);
    if m > p { MulGrows(m, q); }
    assert m == 1 || m == p;
  }

  /** Every number above 1 has a prime factor. */
  lemma PrimeFactor(n: int) returns (q: int)
    requires n > 1
    ensures Prime(q) && Zero(q, n) && q <= n
    decreases n
  {
    if Prime(n) {
      q := n;
      ZeroIntro(n, 1);
    } else {
      var d :| 2 <= d < n && Zero(d, n);
      q := PrimeFactor(d);
      ZeroTrans(q, d, n);
    }
  }

  // ----- powers of integers

  function PowZ(a: int, k: nat): int { if k == 0 then 1 else a * PowZ(a, k - 1) }

  lemma {:induction false} PowZAdd(a: int, m: nat, n: nat)
    ensures PowZ(a, m + n) == PowZ(a, m) * PowZ(a, n)
  {
    if m > 0 {
      PowZAdd(a, m - 1, n);
      assert a * (PowZ(a, m - 1) * PowZ(a, n)) == (a * PowZ(a, m - 1)) * PowZ(a, n);
    }
  }

  lemma {:induction false} PowZMul(a: int, m: nat, n: nat)
    ensures PowZ(PowZ(a, m), n) == PowZ(a, m * n)
  {
    if n > 0 {
      PowZMul(a, m, n - 1);
      assert m * n == m + m * (n - 1);
      PowZAdd(a, m, m * (n - 1));
    } else {
      assert m * n == 0;
    }
  }

  lemma {:induction false} PowZProduct(a: int, b: int, k: nat)
    ensures PowZ(a * b, k) == PowZ(a, k) * PowZ(b, k)
  {
    if k > 0 {
      PowZProduct(a, b, k - 1);
      Exchange(a, b, PowZ(a, k - 1), PowZ(b, k - 1));
    }
  }

  lemma {:induction false} PowZPositive(a: pos, k: nat)
    ensures PowZ(a, k) > 0
  {
    if k > 0 { PowZPositive(a, k - 1); }
  }

  /** Powers of a base above 1 outgrow their exponent. */
  lemma {:induction false} PowZGrows(a: pos, k: nat)
    requires a > 1
    ensures PowZ(a, k) > k
  {
    if k > 0 {
      PowZGrows(a, k - 1);
      MulGrows(PowZ(a, k - 1), a - 1);
      assert a * PowZ(a, k - 1) == PowZ(a, k - 1) + PowZ(a, k - 1) * (a - 1);
    }
  }

  lemma {:induction false} PrimeDividesPower(p: int, a: int, k: nat)
    requires Prime(p) && Zero(p, PowZ(a, k))
    ensures Zero(p, a)
  {
    if k == 0 {
      ZeroSmall(p, 1);
    } else {
      Euclid(p, a, PowZ(a, k - 1));
      if !Zero(p, a) { PrimeDividesPower(p, a, k - 1); }
    }
  }

  /** A residue modulo p congruent to a product. */
  lemma ModCongruent(p: pos, a: int)
    ensures Zero(p, a - a % p)
  {
    assert a - a % p == p * (a / p);
    ZeroIntro(p, a / p);
  }

  lemma {:induction false} PowZCongruent(p: pos, a: int, b: int, k: nat)
    requires Zero(p, a - b)
    ensures Zero(p, PowZ(a, k) - PowZ(b, k))
  {
    if k > 0 {
      PowZCongruent(p, a, b, k - 1);
      var x, y := PowZ(a, k - 1), PowZ(b, k - 1);
      assert a * x - b * y == (a - b) * x + (x - y) * b;
      ZeroCombine(p, a - b, x - y, x, b);
    }
  }

  // ----- roots of polynomials modulo a prime

  /** The value at x of the polynomial with coefficients c, lowest first. */
  function Eval(c: seq<int>, x: int): int {
    if c == [] then 0 else c[0] + x * Eval(c[1..], x)
  }

  function AddScaled(c: seq<int>, r: int, q: seq<int>): (s: seq<int>)
    requires |q| <= |c|
    ensures |s| == |c|
    ensures |q| < |c| ==> s[|c| - 1] == c[|c| - 1]
  {
    if q == [] then c else [c[0] + r * q[0]] + AddScaled(c[1..], r, q[1..])
  }

  lemma {:induction false} EvalAddScaled(c: seq<int>, r: int, q: seq<int>, x: int)
    requires |q| <= |c|
    ensures Eval(AddScaled(c, r, q), x) == Eval(c, x) + r * Eval(q, x)
  {
    if q != [] {
      EvalAddScaled(c[1..], r, q[1..], x);
      var s := AddScaled(c[1..], r, q[1..]);
      assert AddScaled(c, r, q) == [c[0] + r * q[0]] + s;
      assert ([c[0] + r * q[0]] + s)[1..] == s;
      assert x * (Eval(c[1..], x) + r * Eval(q[1..], x)) == x * Eval(c[1..], x) + r * (x * Eval(q[1..], x));
    }
  }

  /** The quotient of the polynomial by x - r. */
  function Divided(c: seq<int>, r: int): (q: seq<int>)
    requires c != []
    ensures |q| == |c| - 1
    ensures |c| >= 2 ==> q[|q| - 1] == c[|c| - 1]
  {
    if |c| == 1 then [] else AddScaled(c[1..], r, Divided(c[1..], r))
  }

  lemma FactorStep(x: int, r: int, a: int, b: int, d: int)
    requires a - b == (x - r) * d
    ensures x * a - r * b == (x - r) * (a + r * d)
  {
    assert x * a - r * b == (x - r) * a + r * (a - b);
    assert r * ((x - r) * d) == (x - r) * (r * d);
    assert (x - r) * a + (x - r) * (r * d) == (x - r) * (a + r * d);
  }

  lemma {:induction false} FactorTheorem(c: seq<int>, r: int, x: int)
    requires c != []
    ensures Eval(c, x) - Eval(c, r) == (x - r) * Eval(Divided(c, r), x)
  {
    if |c| == 1 {
      assert c[1..] == [];
    } else {
      var t := c[1..];
      FactorTheorem(t, r, x);
      EvalAddScaled(t, r, Divided(t, r), x);
      var a, b, d := Eval(t, x), Eval(t, r), Eval(Divided(t, r), x);
      FactorStep(x, r, a, b, d);
    }
  }

  function RootsOf(p: pos, c: seq<int>): set<int> {
    set x | 0 <= x < p && Zero(p, Eval(c, x))
  }

  /** A monic polynomial has at most as many roots modulo a prime as its degree. */
  lemma {:induction false} RootBound(p: int, c: seq<int>)
    requires Prime(p) && c != [] && c[|c| - 1] == 1
    ensures |RootsOf(p, c)| <= |c| - 1
    decreases |c|
  {
    if r :| r in RootsOf(p, c) {
      if |c| == 1 {
        assert c[1..] == [] && Eval([], r) == 0;
        assert Eval(c, r) == 1;
        ZeroSmall(p, 1);
      } else {
        var q := Divided(c, r);
        RootBound(p, q);
        forall x | x in RootsOf(p, c) ensures x in RootsOf(p, q) + {r} {
          FactorTheorem(c, r, x);
          ZeroCombine(p, Eval(c, x), Eval(c, r), 1, -1);
          assert Eval(c, x) * 1 + Eval(c, r) * -1 == (x - r) * Eval(q, x);
          Euclid(p, x - r, Eval(q, x));
          if Zero(p, x - r) { ZeroSmall(p, x - r); }
        }
        SubsetSize(RootsOf(p, c), RootsOf(p, q) + {r});
      }
    }
  }

  lemma SubsetSize<T>(a: set<T>, b: set<T>)
    requires a <= b
    ensures |a| <= |b|
  {
    assert b == a + (b - a);
  }

  function Upto(lo: int, n: nat): (s: set<int>)
    ensures forall x :: x in s <==> lo <= x < lo + n
    ensures |s| == n
  {
    if n == 0 then {} else Upto(lo, n - 1) + {lo + n - 1}
  }

  /** The coefficients of x^e - 1. */
  function UnityPoly(e: pos): (c: seq<int>)
    ensures |c| == e + 1 && c[e] == 1
  {
    [-1] + Monomial(e - 1)
  }

  function Monomial(k: nat): (c: seq<int>)
    ensures |c| == k + 1 && c[k] == 1
  {
    if k == 0 then [1] else [0] + Monomial(k - 1)
  }

  lemma {:induction false} EvalMonomial(k: nat, x: int)
    ensures Eval(Monomial(k), x) == PowZ(x, k)
  {
    if k > 0 {
      EvalMonomial(k - 1, x);
      assert Monomial(k)[1..] == Monomial(k - 1);
    } else {
      assert Monomial(0)[1..] == [];
      assert x * 0 == 0;
    }
  }

  lemma EvalUnity(e: pos, x: int)
    ensures Eval(UnityPoly(e), x) == PowZ(x, e) - 1
  {
    EvalMonomial(e - 1, x);
    assert UnityPoly(e)[1..] == Monomial(e - 1);
  }

  /** If every nonzero residue is a root of x^e - 1 then e is at least p - 1. */
  lemma UniversalExponent(p: int, e: pos)
    requires Prime(p) && forall x :: 1 <= x < p ==> One(p, x, e)
    ensures e >= p - 1
  {
    var c := UnityPoly(e);
    RootBound(p, c);
    forall x | x in Upto(1, p - 1) ensures x in RootsOf(p, c) {
      EvalUnity(e, x);
      assert One(p, x, e);
    }
    SubsetSize(Upto(1, p - 1), RootsOf(p, c));
  }

  // ----- orders

  /** a^k is 1 modulo p. */
  predicate One(p: int, a: int, k: nat) { Zero(p, PowZ(a, k) - 1) }

  lemma LessOne(x: int, y: int)
    ensures x * y - 1 == (x - 1) * y + (y - 1) * 1
    ensures y - 1 == (x * y - 1) * 1 + (x - 1) * -y
  {
    assert (x - 1) * y == x * y - y;
  }

  lemma OneAdd(p: pos, a: int, m: nat, n: nat)
    requires One(p, a, m)
    ensures One(p, a, m + n) <==> One(p, a, n)
  {
    PowZAdd(a, m, n);
    var x, y := PowZ(a, m), PowZ(a, n);
    LessOne(x, y);
    if One(p, a, n) {
      ZeroCombine(p, x - 1, y - 1, y, 1);
    }
    if One(p, a, m + n) {
      ZeroCombine(p, x * y - 1, x - 1, 1, -y);
    }
  }

  lemma {:induction false} OneMultiple(p: pos, a: int, m: nat, t: nat)
    requires One(p, a, m)
    ensures One(p, a, m * t)
  {
    if t == 0 {
      ZeroIntro(p, 0);
      assert m * t == 0;
    } else {
      OneMultiple(p, a, m, t - 1);
      assert m * t == m + m * (t - 1);
      OneAdd(p, a, m, m * (t - 1));
    }
  }

  /** e is the multiplicative order of a modulo p. */
  ghost predicate IsOrder(p: int, a: int, e: nat) {
    && e > 0
    && One(p, a, e)
    && forall k :: 0 < k < e ==> !One(p, a, k)
  }

  lemma OrderDivides(p: pos, a: int, e: nat, k: nat)
    requires IsOrder(p, a, e)
    ensures One(p, a, k) <==> Zero(e, k)
  {
    var q, r := k / e, k % e;
    OneMultiple(p, a, e, q);
    assert k == e * q + r;
    OneAdd(p, a, e * q, r);
    if Zero(e, k) { ZeroIntro(p, 0); }
  }

  /** The least positive k up to n with a^k = 1. */
  lemma FindOrder(p: pos, a: int, n: pos) returns (e: pos)
    requires One(p, a, n)
    ensures IsOrder(p, a, e) && e <= n
    decreases n
  {
    if k :| 0 < k < n && One(p, a, k) {
      e := FindOrder(p, a, k);
    } else {
      e := n;
    }
  }

  function Image(f: int -> int, n: nat): set<int> {
    if n == 0 then {} else Image(f, n - 1) + {f(n - 1)}
  }

  lemma {:induction false} ImageSize(f: int -> int, n: nat)
    requires forall i, j :: 0 <= i < j < n ==> f(i) != f(j)
    ensures |Image(f, n)| == n
    ensures forall x :: x in Image(f, n) ==> exists i :: 0 <= i < n && f(i) == x
  {
    if n > 0 { ImageSize(f, n - 1); }
  }

  /** n values in a range of fewer than n numbers are not all different. */
  lemma Collision(f: int -> int, n: nat, lo: int, m: nat) returns (i: nat, j: nat)
    requires m < n && forall i :: 0 <= i < n ==> lo <= f(i) < lo + m
    ensures i < j < n && f(i) == f(j)
  {
    if i', j' :| 0 <= i' < j' < n && f(i') == f(j') {
      i, j := i', j';
    } else {
      ImageSize(f, n);
      SubsetSize(Image(f, n), Upto(lo, m));
    }
  }

  function PowModFn(p: pos, a: int): int -> int { k => if k >= 0 then PowZ(a, k) % p else 0 }

  lemma PowerNonzero(p: int, a: int, k: nat)
    requires Prime(p) && !Zero(p, a)
    ensures 1 <= PowZ(a, k) % p < p
  {
    if Zero(p, PowZ(a, k)) { PrimeDividesPower(p, a, k); }
  }

  lemma ModEqual(p: pos, x: int, y: int)
    ensures x % p == y % p <==> Zero(p, y - x)
  {
    if x % p == y % p {
      assert y - x == p * (y / p - x / p);
      ZeroIntro(p, y / p - x / p);
    }
    if Zero(p, y - x) {
      var q := ZeroElim(p, y - x);
      ModShift(x, p, q);
    }
  }

  lemma EqualProducts(p: int, x: int, y: int)
    requires Prime(p) && !Zero(p, x)
    ensures Zero(p, x * y - x) <==> Zero(p, y - 1)
  {
    assert x * y - x == x * (y - 1);
    if Zero(p, x * (y - 1)) { Euclid(p, x, y - 1); }
    if Zero(p, y - 1) { ZeroScale(p, y - 1, x); }
  }

  /** Equal powers give an exponent at which the power is 1. */
  lemma EqualPowers(p: int, a: int, i: nat, k: nat)
    requires Prime(p) && !Zero(p, a)
    ensures Zero(p, PowZ(a, i + k) - PowZ(a, i)) <==> One(p, a, k)
  {
    PowZAdd(a, i, k);
    if Zero(p, PowZ(a, i)) { PrimeDividesPower(p, a, i); }
    EqualProducts(p, PowZ(a, i), PowZ(a, k));
  }

  lemma OrderExists(p: int, a: int) returns (e: pos)
    requires Prime(p) && !Zero(p, a)
    ensures IsOrder(p, a, e) && e <= p - 1
  {
    forall i | 0 <= i < p ensures 1 <= PowModFn(p, a)(i) < 1 + (p - 1) { PowerNonzero(p, a, i); }
    var i, j := Collision(PowModFn(p, a), p, 1, p - 1);
    ModEqual(p, PowZ(a, i), PowZ(a, j));
    EqualPowers(p, a, i, j - i);
    e := FindOrder(p, a, j - i);
  }

  lemma OrderUnit(p: int, a: int, e: nat)
    requires Prime(p) && IsOrder(p, a, e)
    ensures !Zero(p, a)
  {
    if Zero(p, a) {
      ZeroScale(p, a, PowZ(a, e - 1));
      ZeroCombine(p, PowZ(a, e), PowZ(a, e) - 1, 1, -1);
      ZeroSmall(p, 1);
    }
  }

  // ----- elements of larger order

  lemma Cancel(a: pos, x: int, y: int)
    requires a * x == a * y
    ensures x == y
  {
    assert a * (x - y) == 0;
    MulGrows(a, x - y);
  }

  lemma {:induction false} PrimePowerDivides(q: int, s: nat, k: int, m: int)
    requires Prime(q) && !Zero(q, m) && Zero(PowZ(q, s), k * m)
    ensures Zero(PowZ(q, s), k)
  {
    PowZPositive(q, s);
    if s == 0 {
      ZeroIntro(1, k);
    } else {
      PowZPositive(q, s - 1);
      var b: pos := PowZ(q, s - 1);
      ZeroIntro(q, b);
      ZeroTrans(q, q * b, k * m);
      Euclid(q, k, m);
      var k' := ZeroElim(q, k);
      var t := ZeroElim(q * b, k * m);
      assert q * (k' * m) == q * (b * t) by { assert q * (b * t) == (q * b) * t; }
      Cancel(q, k' * m, b * t);
      ZeroIntro(b, t);
      PrimePowerDivides(q, s - 1, k', m);
      var z := ZeroElim(b, k');
      assert k == (q * b) * z;
      ZeroIntro(q * b, z);
    }
  }

  lemma {:induction false} CoprimeDivides(q: int, s: nat, m: pos, k: int)
    requires Prime(q) && !Zero(q, m) && Zero(m, k * PowZ(q, s))
    ensures Zero(m, k)
  {
    if s > 0 {
      var b := PowZ(q, s - 1);
      var t := ZeroElim(m, k * (q * b));
      ZeroIntro(q, k * b);
      assert m * t == q * (k * b);
      Euclid(q, m, t);
      var t' := ZeroElim(q, t);
      assert q * (k * b) == q * (m * t');
      Cancel(q, k * b, m * t');
      ZeroIntro(m, t');
      CoprimeDivides(q, s - 1, m, k);
    }
  }

  lemma CoprimeProduct(q: int, s: nat, m: pos, k: int)
    requires Prime(q) && !Zero(q, m) && Zero(m, k) && Zero(PowZ(q, s), k)
    ensures Zero(m * PowZ(q, s), k)
  {
    var t := ZeroElim(m, k);
    assert k == t * m;
    PrimePowerDivides(q, s, t, m);
    PowZPositive(q, s);
    var v := ZeroElim(PowZ(q, s), t);
    assert k == (m * PowZ(q, s)) * v;
    ZeroIntro(m * PowZ(q, s), v);
  }

  lemma MulLess(d: pos, k: pos, f: int)
    requires k < f
    ensures 0 < d * k < d * f
  {
  }

  lemma OrderPower(p: pos, a: int, d: pos, f: pos)
    requires IsOrder(p, a, d * f)
    ensures IsOrder(p, PowZ(a, d), f)
  {
    hide Zero, PowZ;
    PowZMul(a, d, f);
    assert One(p, a, d * f);
    forall k | 0 < k < f ensures !One(p, PowZ(a, d), k) {
      PowZMul(a, d, k);
      MulLess(d, k, f);
      assert !One(p, a, d * k);
    }
  }

  /** If x^k y^k = 1 and y^k = 1 then x^k = 1. */
  lemma OneFactor(p: pos, x: int, y: int, k: nat)
    requires One(p, y, k)
    ensures One(p, x * y, k) <==> One(p, x, k)
  {
    PowZProduct(x, y, k);
    var a, b := PowZ(x, k), PowZ(y, k);
    assert a * b - 1 == (b - 1) * a + (a - 1) * 1;
    assert a - 1 == (a * b - 1) * 1 + (b - 1) * -a;
    if One(p, x, k) { ZeroCombine(p, b - 1, a - 1, a, 1); }
    if One(p, x * y, k) { ZeroCombine(p, a * b - 1, b - 1, 1, -a); }
  }

  lemma OrderProduct(p: pos, q: int, s: nat, m: pos, b: pos, g: int, x: int)
    requires Prime(q) && !Zero(q, m) && b == PowZ(q, s)
    requires IsOrder(p, g, m) && IsOrder(p, x, b)
    ensures IsOrder(p, g * x, m * b)
  {
    OneMultiple(p, g, m, b);
    OneMultiple(p, x, b, m);
    assert b * m == m * b;
    OneFactor(p, g, x, m * b);
    forall k: nat | 0 < k < m * b ensures !One(p, g * x, k) {
      if One(p, g * x, k) {
        ProductExponent(p, q, s, m, b, g, x, k);
        ZeroSmall(m * b, k);
      }
    }
  }

  lemma ProductExponent(p: pos, q: int, s: nat, m: pos, b: pos, g: int, x: int, k: nat)
    requires Prime(q) && !Zero(q, m) && b == PowZ(q, s)
    requires IsOrder(p, g, m) && IsOrder(p, x, b) && One(p, g * x, k)
    ensures Zero(m * b, k)
  {
    OneMultiple(p, g * x, k, m);
    OneMultiple(p, g, m, k);
    assert m * k == k * m && x * g == g * x;
    OneFactor(p, x, g, k * m);
    OrderDivides(p, x, b, k * m);
    PrimePowerDivides(q, s, k, m);
    OneMultiple(p, g * x, k, b);
    OneMultiple(p, x, b, k);
    assert b * k == k * b;
    OneFactor(p, g, x, k * b);
    OrderDivides(p, g, m, k * b);
    CoprimeDivides(q, s, m, k);
    CoprimeProduct(q, s, m, k);
  }

  /** n with all factors q split off. */
  lemma Valuation(q: int, n: pos) returns (s: nat, m: pos)
    requires Prime(q)
    ensures n == PowZ(q, s) * m && !Zero(q, m) && m <= n
    ensures Zero(q, n) ==> s > 0 && m < n
    decreases n
  {
    if Zero(q, n) {
      var k := ZeroElim(q, n);
      if k <= 0 { MulGrows(q, k); }
      MulGrows(k, q - 1);
      assert k * (q - 1) == n - k;
      s, m := Valuation(q, k);
      assert q * (PowZ(q, s) * m) == PowZ(q, s + 1) * m;
      s := s + 1;
    } else {
      s, m := 0, n;
    }
  }

  /** A prime whose power in d exceeds its power in e, when d does not divide e. */
  lemma GapPrime(d: pos, e: pos) returns (q: int, s: nat, t: nat, d1: pos, e1: pos)
    requires !Zero(d, e)
    ensures Prime(q) && t < s && !Zero(q, e1)
    ensures d == PowZ(q, s) * d1 && e == PowZ(q, t) * e1
    decreases d
  {
    assert d > 1 by { ZeroIntro(1, e); }
    q := PrimeFactor(d);
    s, d1 := Valuation(q, d);
    t, e1 := Valuation(q, e);
    if s <= t {
      assert !Zero(d1, e1) by {
        if Zero(d1, e1) { GapDivides(q, s, t, d1, e1); }
      }
      var q2, s2, t2, d2, e2 := GapPrime(d1, e1);
      DifferentPrimes(q, s, t, d1, q2, s2, d2, e2);
      var a, b := PowZ(q, s), PowZ(q, t);
      assert a * (PowZ(q2, s2) * d2) == PowZ(q2, s2) * (a * d2);
      assert b * (PowZ(q2, t2) * e2) == PowZ(q2, t2) * (b * e2);
      PowZPositive(q, s);
      PowZPositive(q, t);
      q, s, t, d1, e1 := q2, s2, t2, a * d2, b * e2;
    }
  }

  lemma GapDivides(q: int, s: nat, t: nat, d: pos, e: pos)
    requires Prime(q) && s <= t && Zero(d, e)
    ensures Zero(PowZ(q, s) * d, PowZ(q, t) * e)
  {
    var k := ZeroElim(d, e);
    PowZAdd(q, s, t - s);
    PowZPositive(q, s);
    var a, b := PowZ(q, s), PowZ(q, t - s);
    assert PowZ(q, t) * e == (a * d) * (b * k) by { Exchange(a, b, d, k); }
    ZeroIntro(a * d, b * k);
  }

  lemma DifferentPrimes(q: int, s: nat, t: nat, d1: pos, q2: int, s2: nat, d2: int, e2: int)
    requires Prime(q) && Prime(q2) && !Zero(q, d1) && s2 > 0 && d1 == PowZ(q2, s2) * d2
    requires !Zero(q2, e2)
    ensures !Zero(q2, PowZ(q, t) * e2)
  {
    var z := PowZ(q2, s2 - 1);
    assert d1 == q2 * (z * d2);
    ZeroIntro(q2, z * d2);
    if Zero(q2, PowZ(q, t) * e2) {
      Euclid(q2, PowZ(q, t), e2);
      PrimeDividesPower(q2, q, t);
      PrimeDividesPrime(q2, q);
    }
  }

  lemma PrimeDividesPrime(q: int, p: int)
    requires Prime(q) && Prime(p) && Zero(q, p)
    ensures q == p
  {
    var k := ZeroElim(q, p);
    MulGrows(q, k);
  }

  lemma PowZMore(q: pos, t: nat, s: nat)
    requires q > 1 && t < s
    ensures 0 < PowZ(q, t) < PowZ(q, s)
  {
    PowZAdd(q, t, s - t);
    PowZPositive(q, t);
    PowZGrows(q, s - t);
    MulLess(PowZ(q, t), 1, PowZ(q, s - t));
  }

  /** From an element whose order does not divide e to an element of order above e. */
  lemma LargerOrder(p: int, g: int, e: pos, x: int, d: pos) returns (y: int, n: pos)
    requires Prime(p) && IsOrder(p, g, e) && IsOrder(p, x, d) && !Zero(d, e)
    ensures IsOrder(p, y, n) && n > e
  {
    hide Zero, PowZ, IsOrder;
    var q, s, t, d1, e1 := GapPrime(d, e);
    PowZMore(q, t, s);
    var a, b := PowZ(q, t), PowZ(q, s);
    assert d1 * b == d && a * e1 == e;
    OrderPower(p, x, d1, b);
    OrderPower(p, g, a, e1);
    y, n := PowZ(g, a) * PowZ(x, d1), e1 * b;
    OrderProduct(p, q, s, e1, b, PowZ(g, a), PowZ(x, d1));
    MulLess(e1, a, b);
  }

  lemma OrderOfResidue(p: int, y: int, n: nat)
    requires Prime(p) && IsOrder(p, y, n)
    ensures IsOrder(p, y % p, n) && 1 <= y % p < p
  {
    OrderUnit(p, y, n);
    ModCongruent(p, y);
    forall k: nat ensures One(p, y, k) <==> One(p, y % p, k) {
      PowZCongruent(p, y, y % p, k);
      var a, b := PowZ(y, k), PowZ(y % p, k);
      if One(p, y, k) { ZeroCombine(p, a - 1, a - b, 1, -1); }
      if One(p, y % p, k) { ZeroCombine(p, b - 1, a - b, 1, 1); }
    }
  }

  lemma Climb(p: int, g: int, e: pos) returns (h: int)
    requires Prime(p) && 1 <= g < p && IsOrder(p, g, e)
    ensures 1 <= h < p && IsOrder(p, h, p - 1)
    decreases p - e
  {
    OrderUnit(p, g, e);
    var e' := OrderExists(p, g);
    assert e == e';
    if x :| 1 <= x < p && !One(p, x, e) {
      if Zero(p, x) { ZeroSmall(p, x); }
      var d := OrderExists(p, x);
      OrderDivides(p, x, d, e);
      var y, n := LargerOrder(p, g, e, x, d);
      OrderOfResidue(p, y, n);
      OrderUnit(p, y, n);
      var n' := OrderExists(p, y);
      assert n == n';
      h := Climb(p, y % p, n);
    } else {
      UniversalExponent(p, e);
      h := g;
    }
  }

  /** Every prime has a primitive root. */
  lemma PrimitiveRootExists(p: int) returns (g: int)
    requires Prime(p)
    ensures 1 <= g < p && IsOrder(p, g, p - 1)
  {
    if Zero(p, 1) { ZeroSmall(p, 1); }
    var e := OrderExists(p, 1);
    g := Climb(p, 1, e);
  }
}
