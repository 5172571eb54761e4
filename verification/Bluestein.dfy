/** Bluestein's algorithm: a transform of any length as a zero-padded cyclic convolution with
    a chirp.
 */
module Bluestein {
  import opened Integers
  import opened Algebra
  import opened Roots
  import opened Transform

  /** Table entry k: exp(d pi i k^2 / n), with k^2 reduced modulo 2 n. */
  function Chirp<T>(u: Roots<T>, n: pos, d: int, k: int): T {
    u.w(2 * n, d * MulMod(k, k, 2 * n))
  }

  /** The input times the chirp, followed by zeros. */
  function Chirped<T>(u: Roots<T>, n: pos, d: int, x: int -> T): int -> T {
    k => if 0 <= k < n then u.ring.mul(x(k), Chirp(u, n, d, k)) else u.ring.zero
  }

  function ChirpKernel<T>(u: Roots<T>, n: pos, d: int, pad: int, k: int): T {
    u.ring.mul(u.conj(Chirp(u, n, d, k)), u.recip(pad))
  }

  /** One wrapped period of the convolution kernel, already divided by its length. */
  ghost predicate IsChirpKernel<T>(u: Roots<T>, n: pos, d: int, pad: int, b: int -> T) {
    forall k {:trigger ChirpKernel(u, n, d, pad, k)} :: 0 <= k < n ==>
      && b(k) == ChirpKernel(u, n, d, pad, k)
      && (k > 0 ==> b(pad - k) == ChirpKernel(u, n, d, pad, k))
  }

  /** Reducing k^2 modulo 2 n does not change the chirp. */
  lemma ChirpUnreduced<T(!new)>(u: Roots<T>, n: pos, d: int, k: int)
    requires IsRoots(u) && Divides(2 * n, u.order)
    ensures Chirp(u, n, d, k) == u.w(2 * n, Phase(d, k, k))
  {
    var q := k * k / (2 * n);
    assert k * k == MulMod(k, k, 2 * n) + (2 * n) * q;
    assert d * (k * k) == d * MulMod(k, k, 2 * n) + (2 * n) * (d * q);
    WPeriod(u, 2 * n, d * MulMod(k, k, 2 * n), d * q);
  }

  /** The kernel entry that input q meets in output k. */
  lemma ChirpEntry<T(!new)>(u: Roots<T>, n: pos, d: int, pad: pos, b: int -> T, q: int, k: int)
    requires IsRoots(u) && Divides(2 * n, u.order)
    requires IsChirpKernel(u, n, d, pad, b) && pad >= 2 * n - 1
    requires 0 <= q < n && 0 <= k < n
    ensures b(Mod(k - q, pad)) == u.ring.mul(u.w(2 * n, -Phase(d, k - q, k - q)), u.recip(pad))
  {
    var e := k - q;
    var m := if e >= 0 then e else -e;
    assert Phase(d, m, m) == Phase(d, e, e);
    hide Phase, Chirp;
    ChirpUnreduced(u, n, d, m);
    assert b(m) == ChirpKernel(u, n, d, pad, m);
    WConj(u, 2 * n, Phase(d, e, e));
    if e >= 0 {
      ModUnique(e, pad, 0, e);
    } else {
      ModUnique(e, pad, -1, pad - m);
    }
  }

  lemma ChirpIdentity(d: int, q: int, k: int)
    ensures Phase(d, q, q) + -Phase(d, k - q, k - q) + Phase(d, k, k) == 2 * Phase(d, q, k)
  {
    assert (k - q) * (k - q) == k * k - 2 * (q * k) + q * q;
  }

  /** The three chirps of one term combine to the term of the transform. */
  lemma ChirpTerm<T(!new)>(u: Roots<T>, n: pos, d: int, q: int, k: int)
    requires IsRoots(u) && Divides(2 * n, u.order)
    ensures u.ring.mul(u.ring.mul(Chirp(u, n, d, q), u.w(2 * n, -Phase(d, k - q, k - q))), Chirp(u, n, d, k))
         == u.w(n, Phase(d, q, k))
  {
    hide Divides, Phase, Chirp;
    var a, b, c := Phase(d, q, q), -Phase(d, k - q, k - q), Phase(d, k, k);
    ChirpUnreduced(u, n, d, q);
    ChirpUnreduced(u, n, d, k);
    WAdd(u, 2 * n, a, b);
    WAdd(u, 2 * n, a + b, c);
    ChirpIdentity(d, q, k);
    assert n * 2 == 2 * n;
    WRefine(u, n, 2, Phase(d, q, k));
  }

  /** Term q of the convolution, without the division and before the second chirp. */
  function ConvolvedTerms<T>(u: Roots<T>, n: pos, d: int, x: int -> T, k: int): int -> T {
    q => if 0 <= q < n
         then u.ring.mul(u.ring.mul(x(q), Chirp(u, n, d, q)), u.w(2 * n, -Phase(d, k - q, k - q)))
         else u.ring.zero
  }

  lemma {:induction false} SumPadded<T(!new)>(r: Ring<T>, n: nat, pad: nat, f: int -> T)
    requires IsRing(r) && n <= pad && forall i :: n <= i < pad ==> f(i) == r.zero
    ensures Sum(r, pad, f) == Sum(r, n, f)
  {
    if n < pad {
      SumPadded(r, n, pad - 1, f);
      AddLaws(r, Sum(r, n, f), r.zero, r.zero);
    }
  }

  lemma BluesteinConvolution<T(!new)>(u: Roots<T>, n: pos, d: int, pad: pos, x: int -> T, b: int -> T, k: int)
    requires IsRoots(u) && Divides(2 * n, u.order) && Divides(pad, u.order)
    requires IsChirpKernel(u, n, d, pad, b) && pad >= 2 * n - 1
    requires 0 <= k < n
    ensures Times(u.ring, pad, Convolve(u.ring, pad, Chirped(u, n, d, x), b, k))
         == Sum(u.ring, n, ConvolvedTerms(u, n, d, x, k))
  {
    hide Mod, Divides, Phase, Chirp;
    var r, terms, g := u.ring, ConvolveTerms(u.ring, pad, Chirped(u, n, d, x), b, k), ConvolvedTerms(u, n, d, x, k);
    forall q | 0 <= q < pad ensures terms(q) == r.mul(g(q), u.recip(pad)) {
      if q < n {
        ChirpEntry(u, n, d, pad, b, q, k);
        MulLaws(r, Chirped(u, n, d, x)(q), u.w(2 * n, -Phase(d, k - q, k - q)), u.recip(pad));
      } else {
        MulZero(r, b(Mod(k - q, pad)));
        MulZero(r, u.recip(pad));
      }
    }
    assert forall i :: n <= i < pad ==> g(i) == r.zero;
    hide ConvolveTerms, ConvolvedTerms, IsChirpKernel;
    SumScaleRight(r, pad, g, u.recip(pad), terms);
    RecipCancels(u, pad, Sum(r, pad, g));
    SumPadded(r, n, pad, g);
  }

  lemma RechirpedTerm<T(!new)>(u: Roots<T>, n: pos, d: int, x: int -> T, q: int, k: int)
    requires IsRoots(u) && Divides(2 * n, u.order) && 0 <= q < n
    ensures DftTerms(u, n, d, x, k)(q) == u.ring.mul(ConvolvedTerms(u, n, d, x, k)(q), Chirp(u, n, d, k))
  {
    hide Divides, Phase, Chirp;
    var v := u.w(2 * n, -Phase(d, k - q, k - q));
    ChirpTerm(u, n, d, q, k);
    MulLaws(u.ring, x(q), Chirp(u, n, d, q), v);
    MulLaws(u.ring, x(q), u.ring.mul(Chirp(u, n, d, q), v), Chirp(u, n, d, k));
  }

  /** Bluestein's algorithm computes the transform, for any padded length from 2 n - 1 on. */
  lemma BluesteinIsDft<T(!new)>(u: Roots<T>, n: pos, d: int, pad: pos, x: int -> T, b: int -> T, k: int)
    requires IsRoots(u) && Divides(2 * n, u.order) && Divides(pad, u.order)
    requires IsChirpKernel(u, n, d, pad, b) && pad >= 2 * n - 1
    requires 0 <= k < n
    ensures Dft(u, n, d, x, k) == u.ring.mul(
              Dft(u, pad, 1, Pointwise(u.ring, Spectrum(u, pad, -1, Chirped(u, n, d, x)), Spectrum(u, pad, -1, b)), k),
              Chirp(u, n, d, k))
  {
    hide Mod, Divides, Phase, Chirp, ConvolvedTerms, DftTerms, Pointwise, Spectrum, Convolve, Chirped;
    var g := ConvolvedTerms(u, n, d, x, k);
    ConvolveByTransforms(u, pad, -1, Chirped(u, n, d, x), b, k);
    BluesteinConvolution(u, n, d, pad, x, b, k);
    forall q | 0 <= q < n ensures DftTerms(u, n, d, x, k)(q) == u.ring.mul(g(q), Chirp(u, n, d, k)) {
      RechirpedTerm(u, n, d, x, q, k);
    }
    SumScaleRight(u.ring, n, g, Chirp(u, n, d, k), DftTerms(u, n, d, x, k));
  }
}
