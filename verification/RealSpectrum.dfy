/** Transforms of real inputs: the second half of the spectrum is the conjugate of the first. */
module RealSpectrum {
  import opened Integers
  import opened Algebra
  import opened Roots
  import opened Transform

  /** conj is an automorphism of the ring that undoes itself. */
  ghost predicate IsConjugation<T(!new)>(u: Roots<T>) {
    forall a, b {:trigger At(a, b, b)} :: At(a, b, b) ==>
      && u.conj(u.ring.add(a, b)) == u.ring.add(u.conj(a), u.conj(b))
      && u.conj(u.ring.mul(a, b)) == u.ring.mul(u.conj(a), u.conj(b))
      && u.conj(u.conj(a)) == a
  }

  lemma ConjLaws<T(!new)>(u: Roots<T>, a: T, b: T)
    requires IsConjugation(u)
    ensures u.conj(u.ring.add(a, b)) == u.ring.add(u.conj(a), u.conj(b))
    ensures u.conj(u.ring.mul(a, b)) == u.ring.mul(u.conj(a), u.conj(b))
    ensures u.conj(u.conj(a)) == a
  {
    assert At(a, b, b);
  }

  lemma ConjZero<T(!new)>(u: Roots<T>)
    requires IsRing(u.ring) && IsConjugation(u)
    ensures u.conj(u.ring.zero) == u.ring.zero
  {
    var z := u.conj(u.ring.zero);
    AddLaws(u.ring, u.ring.zero, u.ring.zero, u.ring.zero);
    ConjLaws(u, u.ring.zero, u.ring.zero);
    AddLaws(u.ring, z, z, z);
    AddCancel(u.ring, z, z, u.ring.zero);
  }

  lemma {:induction false} SumConj<T(!new)>(u: Roots<T>, n: nat, f: int -> T, g: int -> T)
    requires IsRing(u.ring) && IsConjugation(u)
    requires forall i :: 0 <= i < n ==> g(i) == u.conj(f(i))
    ensures u.conj(Sum(u.ring, n, f)) == Sum(u.ring, n, g)
  {
    ConjZero(u);
    if n > 0 {
      SumConj(u, n - 1, f, g);
      ConjLaws(u, Sum(u.ring, n - 1, f), f(n - 1));
    }
  }

  ghost predicate Real<T>(u: Roots<T>, n: int, x: int -> T) {
    forall j :: 0 <= j < n ==> u.conj(x(j)) == x(j)
  }

  lemma PhaseMirror(d: sign, n: int, j: int, k: int)
    ensures Phase(d, j, n - k) == -Phase(d, j, k) + n * (d * j)
  {
    assert j * (n - k) == n * j - j * k;
  }

  /** Output n - k of a real input is the conjugate of output k. */
  lemma Mirror<T(!new)>(u: Roots<T>, n: pos, d: sign, x: int -> T, k: int)
    requires IsRoots(u) && IsConjugation(u) && Divides(n, u.order) && Real(u, n, x)
    ensures Dft(u, n, d, x, n - k) == u.conj(Dft(u, n, d, x, k))
  {
    hide Phase, Divides;
    var f, g := DftTerms(u, n, d, x, k), DftTerms(u, n, d, x, n - k);
    forall j | 0 <= j < n ensures g(j) == u.conj(f(j)) {
      PhaseMirror(d, n, j, k);
      ConjLaws(u, x(j), u.w(n, Phase(d, j, k)));
      WConj(u, n, Phase(d, j, k));
      WPeriod(u, n, -Phase(d, j, k), d * j);
    }
    SumConj(u, n, f, g);
  }

  // ----- the half spectrum of a two-stage transform

  /** Output k of column h of r m outputs is one of the first r m / 2 + 1. */
  predicate InHalf(r: int, m: int, h: int, k: int) {
    0 <= h < m && 0 <= k < r && 2 * (h + m * k) <= r * m
  }

  /** Where the half spectrum ends in column h, by the distance of 2 k from r. */
  lemma HalfEnds(r: pos, m: pos, h: int, k: int)
    requires 0 <= h < m && 0 <= k < r
    ensures InHalf(r, m, h, k) <==> 2 * k - r <= -2 || (2 * k - r == -1 && 2 * h <= m) || (2 * k - r == 0 && h == 0)
  {
    var c := 2 * k - r;
    var x := m * c;
    assert 2 * (h + m * k) - r * m == x + 2 * h;
    MulGrows(m, c);
    if c <= -2 {
      assert x == m * (c + 1) - m;
      MulGrows(m, c + 1);
    }
  }

  /** What the kernels of a stage write: the half of column 0 up to output r / 2, outputs below
      (r + 1) / 2 of the columns below half, the rest of those columns mirrored into the columns
      above half, and, when m is even, the outputs below (r + 1) / 2 of the middle column.
   */
  lemma Tiling(r: pos, m: pos, h: int, k: int)
    requires 0 <= h < m && 0 <= k < r
    ensures InHalf(r, m, h, k) <==>
              if h == 0 then k <= r / 2
              else if h < (m + 1) / 2 then k < (r + 1) / 2
              else if 2 * h == m then k < (r + 1) / 2
              else k < r / 2
    ensures h < (m + 1) / 2 <==> 2 * h < m
  {
    hide InHalf;
    HalfEnds(r, m, h, k);
  }

  /** Column h and output k against the mirrored column and output. */
  lemma MirrorIndex(r: pos, m: pos, h: int, k: int)
    ensures r * m - Ix(m, h, k) == Ix(m, m - h, r - 1 - k)
  {
    assert m * (r - 1 - k) == r * m - m - m * k;
  }

  /** An output of the stage: that of the twiddled column, or for the columns above half the
      conjugate of the mirrored output of the mirrored column.
   */
  function HalfOutput<T>(u: Roots<T>, r: nat, m: int, d: int, sub: int -> int -> T, h: int, k: int): T {
    if 2 * h <= m then KernelValue(u, r, d, sub(h), Twiddles(u, r * m, d, h), k)
    else u.conj(KernelValue(u, r, d, sub(m - h), Twiddles(u, r * m, d, m - h), r - 1 - k))
  }

  function SubSpectra<T>(u: Roots<T>, r: int, m: nat, d: int, x: int -> T): int -> int -> T {
    h => SubOutputs(u, r, m, d, x, h)
  }

  /** From the half spectra of the interleaved subsequences of a real input to its half spectrum. */
  lemma HalfSpectrum<T(!new)>(u: Roots<T>, r: pos, m: pos, d: sign, x: int -> T, h: int, k: int)
    requires IsRoots(u) && IsConjugation(u) && Divides(r * m, u.order) && Real(u, r * m, x)
    requires 0 <= h < m && 0 <= k < r
    ensures HalfOutput(u, r, m, d, SubSpectra(u, r, m, d, x), h, k) == Dft(u, r * m, d, x, Ix(m, h, k))
  {
    hide Ix, Divides, IsRoots, IsConjugation, Real, KernelValue, Dft;
    if 2 * h <= m {
      CooleyTukey(u, r, m, d, x, h, k);
    } else {
      CooleyTukey(u, r, m, d, x, m - h, r - 1 - k);
      MirrorIndex(r, m, h, k);
      var I := Ix(m, m - h, r - 1 - k);
      Mirror(u, r * m, d, x, I);
      assert r * m - I == Ix(m, h, k);
    }
  }

  // ----- convolution stages

  /** What a Rader stage unpacks of column h: for odd lengths, the same half spectrum. */
  lemma RaderTiling(r: pos, m: pos, h: int, k: int)
    requires 0 <= h < m && 0 <= k < r && r % 2 == 1
    ensures InHalf(r, m, h, k) <==> k < (if h < m / 2 + 1 then r / 2 + 1 else r / 2)
  {
    Tiling(r, m, h, k);
  }

  /** What a Bluestein stage unpacks: all columns below output r / 2, and of that output column 0
      or, for odd lengths, the columns up to half.
   */
  lemma BluesteinTiling(r: pos, m: pos, h: int, k: int)
    requires 0 <= h < m && 0 <= k < r
    ensures InHalf(r, m, h, k) <==> k < r / 2 || (k == r / 2 && h < (if r % 2 == 0 then 1 else m / 2 + 1))
  {
    Tiling(r, m, h, k);
  }

  /** The columns above half that the convolution stages rebuild by conjugation while packing are
      the missing outputs of the interleaved subsequences.
   */
  lemma RebuiltColumn<T(!new)>(u: Roots<T>, r: pos, m: pos, d: sign, x: int -> T, h: int, j: int)
    requires IsRoots(u) && IsConjugation(u) && Divides(r * m, u.order) && Real(u, r * m, x)
    requires 0 <= h < m && 0 <= j < r
    ensures u.conj(SubOutputs(u, r, m, d, x, m - h)(j)) == SubOutputs(u, r, m, d, x, h)(j)
  {
    DividesFactor(r, m, u.order);
    assert Real(u, m, Every(x, r, j)) by {
      forall t | 0 <= t < m ensures 0 <= Ix(r, j, t) < r * m {
        MulGrows(r, m - t);
        assert r * (m - t) == r * m - r * t && r * t >= 0;
      }
    }
    hide Divides, Dft;
    Mirror(u, m, d, Every(x, r, j), m - h);
    assert m - (m - h) == h;
  }
}
