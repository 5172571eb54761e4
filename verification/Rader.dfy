/** Rader's algorithm: a transform of odd prime length n as a cyclic convolution of length
    n - 1, in the order given by a generator.
 */
module Rader {
  import opened Integers
  import opened Algebra
  import opened Roots
  import opened Transform
  import opened Generator

  /** x[1..] in generator order. */
  function Packed<T>(x: int -> T, perm: seq<int>): int -> T {
    k => if 0 <= k < |perm| then x(perm[k]) else x(0)
  }

  /** The convolution kernel that the tables store, already divided by its length. */
  ghost predicate IsKernel<T>(u: Roots<T>, n: int, d: int, perm: seq<int>, b: int -> T) {
    && n > 2 && |perm| == n - 1
    && forall k :: 0 <= k < n - 1 ==>
         b(Mod(n - 1 - k, n - 1)) == u.ring.mul(u.w(n, d * perm[k]), u.recip(n - 1))
  }

  lemma IndexDifference(m: pos, q: int, s: int, e: int)
    requires 0 <= e < m && 0 <= s < m && e == Mod(q + Mod(m - s, m), m)
    ensures Mod(s - q, m) == Mod(m - e, m)
  {
    var a, b := (m - s) / m, (q + Mod(m - s, m)) / m;
    assert s - q == (m - e) + m * -(a + b);
    ModShift(m - e, m, -(a + b));
  }

  lemma PhaseReduce(d: sign, a: int, b: int, n: pos)
    ensures Phase(d, a, b) == d * MulMod(a, b, n) + n * (d * (a * b / n))
  {
    assert a * b == MulMod(a, b, n) + n * (a * b / n);
  }

  /** The kernel entry that meets input perm[q] in output v. */
  lemma KernelEntry<T(!new)>(u: Roots<T>, n: int, d: sign, perm: seq<int>, rev: seq<int>, b: int -> T, q: int, v: int)
    requires IsRoots(u) && n > 2 && Divides(n, u.order)
    requires RaderTables(n, perm, rev) && IsKernel(u, n, d, perm, b)
    requires 0 <= q < n - 1 && 1 <= v < n
    ensures b(Mod(rev[v] - q, n - 1)) == u.ring.mul(u.w(n, Phase(d, perm[q], v)), u.recip(n - 1))
  {
    hide Mod, MulMod, Divides, Phase;
    var m: pos := n - 1;
    var K := Mod(m - rev[v], m);
    var e := Mod(q + K, m);
    ModSplit(q + K, m);
    IndexDifference(m, q, rev[v], e);
    RevAt(n, perm, rev, v);
    assert MulMod(perm[q], perm[K], n) == perm[e];
    PhaseReduce(d, perm[q], v, n);
    WPeriod(u, n, d * perm[e], d * (perm[q] * v / n));
  }

  /** Shifting perm by one makes it a permutation of 0..n-1. */
  function PermFn(perm: seq<int>): int -> int { q => if 0 <= q < |perm| then perm[q] - 1 else 0 }

  function PermInverse(n: int, rev: seq<int>): int -> int {
    j => if 0 <= j && j + 1 < |rev| && n > 2 then Mod(n - 1 - rev[j + 1], n - 1) else 0
  }

  lemma PermutationOfRest(n: int, perm: seq<int>, rev: seq<int>)
    requires RaderTables(n, perm, rev)
    ensures Inverse(n - 1, PermFn(perm), PermInverse(n, rev))
  {
    var m: pos := n - 1;
    hide Mod;
    var p, q := PermFn(perm), PermInverse(n, rev);
    forall i | 0 <= i < m ensures 0 <= p(i) < m && q(p(i)) == i {
      PermAt(n, perm, rev, i);
      NegateTwice(m, i);
    }
    forall j | 0 <= j < m ensures 0 <= q(j) < m && p(q(j)) == j {
      RevAt(n, perm, rev, j + 1);
    }
  }

  function Shift1<T>(f: int -> T): int -> T { j => f(j + 1) }

  lemma SumHead<T(!new)>(r: Ring<T>, n: pos, f: int -> T)
    requires IsRing(r)
    ensures Sum(r, n, f) == r.add(f(0), Sum(r, n - 1, Shift1(f)))
  {
    hide IsRing;
    SumSplit(r, 1, n - 1, f);
    AddLaws(r, f(0), f(0), f(0));
    assert Sum(r, 1, f) == r.add(Sum(r, 0, f), f(0));
    SumExt(r, n - 1, i => f(1 + i), Shift1(f));
  }

  lemma SumRestReordered<T(!new)>(r: Ring<T>, n: int, perm: seq<int>, rev: seq<int>, f: int -> T, g: int -> T)
    requires IsRing(r) && RaderTables(n, perm, rev)
    requires forall q :: 0 <= q < n - 1 ==> g(q) == f(perm[q])
    ensures Sum(r, n - 1, Shift1(f)) == Sum(r, n - 1, g)
  {
    hide RaderTables;
    TablesInRange(n, perm, rev);
    PermutationOfRest(n, perm, rev);
    var p := PermFn(perm);
    forall q | 0 <= q < n - 1 ensures Compose(Shift1(f), p)(q) == g(q) {
      assert p(q) == perm[q] - 1;
    }
    hide PermFn, PermInverse, PermInRange, RevInRange;
    SumReorder(r, n - 1, p, PermInverse(n, rev), Shift1(f));
    SumExt(r, n - 1, Compose(Shift1(f), p), g);
  }

  /** The terms past the first, in generator order. */
  lemma SumInGeneratorOrder<T(!new)>(r: Ring<T>, n: int, perm: seq<int>, rev: seq<int>, f: int -> T, g: int -> T)
    requires IsRing(r) && RaderTables(n, perm, rev)
    requires forall q :: 0 <= q < n - 1 ==> g(q) == f(perm[q])
    ensures Sum(r, n, f) == r.add(f(0), Sum(r, n - 1, g))
  {
    SumHead(r, n, f);
    SumRestReordered(r, n, perm, rev, f, g);
  }

  /** The terms of output v in generator order. */
  function OrderedTerms<T>(u: Roots<T>, n: int, d: int, x: int -> T, perm: seq<int>, v: int): int -> T {
    q => if 0 <= q < |perm| then u.ring.mul(x(perm[q]), u.w(n, Phase(d, perm[q], v))) else x(0)
  }

  lemma RaderConvolution<T(!new)>(u: Roots<T>, n: int, d: sign, perm: seq<int>, rev: seq<int>, x: int -> T, b: int -> T, v: int)
    requires IsRoots(u) && n > 2 && Divides(n, u.order) && Divides(n - 1, u.order)
    requires RaderTables(n, perm, rev) && IsKernel(u, n, d, perm, b)
    requires 1 <= v < n
    ensures Times(u.ring, n - 1, Convolve(u.ring, n - 1, Packed(x, perm), b, rev[v]))
         == Sum(u.ring, n - 1, OrderedTerms(u, n, d, x, perm, v))
  {
    hide Mod, Divides, Phase;
    var m: pos, r := n - 1, u.ring;
    var terms, g := ConvolveTerms(r, m, Packed(x, perm), b, rev[v]), OrderedTerms(u, n, d, x, perm, v);
    forall q | 0 <= q < m ensures terms(q) == r.mul(g(q), u.recip(m)) {
      KernelEntry(u, n, d, perm, rev, b, q, v);
      MulLaws(r, x(perm[q]), u.w(n, Phase(d, perm[q], v)), u.recip(m));
    }
    hide ConvolveTerms, OrderedTerms, RaderTables, IsKernel;
    SumScaleRight(r, m, g, u.recip(m), terms);
    RecipCancels(u, m, Sum(r, m, g));
  }

  /** Rader's algorithm computes the transform: output 0 is the plain sum, every other output
      v is x[0] plus element rev[v] of the cyclic convolution.
   */
  lemma RaderIsDft<T(!new)>(u: Roots<T>, n: int, d: sign, perm: seq<int>, rev: seq<int>, x: int -> T, b: int -> T, v: int)
    requires IsRoots(u) && n > 2 && Divides(n, u.order) && Divides(n - 1, u.order)
    requires RaderTables(n, perm, rev) && IsKernel(u, n, d, perm, b)
    requires 1 <= v < n
    ensures Dft(u, n, d, x, v) == u.ring.add(x(0),
              Dft(u, n - 1, 1, Pointwise(u.ring, Spectrum(u, n - 1, -1, Packed(x, perm)), Spectrum(u, n - 1, -1, b)), rev[v]))
  {
    hide Mod, Divides;
    var m: pos, r := n - 1, u.ring;
    ConvolveByTransforms(u, m, -1, Packed(x, perm), b, rev[v]);
    RaderConvolution(u, n, d, perm, rev, x, b, v);
    SumInGeneratorOrder(r, n, perm, rev, DftTerms(u, n, d, x, v), OrderedTerms(u, n, d, x, perm, v));
    WZero(u, n);
    MulLaws(r, x(0), x(0), x(0));
  }

  lemma RaderZero<T(!new)>(u: Roots<T>, n: int, d: sign, perm: seq<int>, rev: seq<int>, x: int -> T)
    requires IsRoots(u) && n > 2 && Divides(n, u.order) && RaderTables(n, perm, rev)
    ensures Dft(u, n, d, x, 0) == u.ring.add(x(0), Sum(u.ring, n - 1, Packed(x, perm)))
  {
    DftZero(u, n, d, x);
    SumInGeneratorOrder(u.ring, n, perm, rev, x, Packed(x, perm));
  }
}
