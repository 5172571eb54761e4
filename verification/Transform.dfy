/** The discrete Fourier transform as a sum, and the identities the plans rest on. */
module Transform {
  import opened Integers
  import opened Algebra
  import opened Roots

  /** Transform direction: the sign of the exponent. */
  type sign = d: int | d == 1 || d == -1 witness 1

  function Opposite(d: sign): sign { if d == 1 then -1 else 1 }

  function DftTerms<T>(u: Roots<T>, n: int, d: int, x: int -> T, k: int): int -> T {
    j => u.ring.mul(x(j), u.w(n, Phase(d, j, k)))
  }

  /** Output k of the unnormalised length-n transform of x. */
  function Dft<T>(u: Roots<T>, n: nat, d: int, x: int -> T, k: int): T {
    Sum(u.ring, n, DftTerms(u, n, d, x, k))
  }

  function Spectrum<T>(u: Roots<T>, n: nat, d: int, x: int -> T): int -> T { k => Dft(u, n, d, x, k) }

  lemma DftExt<T(!new)>(u: Roots<T>, n: nat, d: int, x: int -> T, y: int -> T, k: int)
    requires forall j :: 0 <= j < n ==> x(j) == y(j)
    ensures Dft(u, n, d, x, k) == Dft(u, n, d, y, k)
  {
    SumExt(u.ring, n, DftTerms(u, n, d, x, k), DftTerms(u, n, d, y, k));
  }

  /** Output 0 is the plain sum. */
  lemma DftZero<T(!new)>(u: Roots<T>, n: pos, d: int, x: int -> T)
    requires IsRoots(u) && Divides(n, u.order)
    ensures Dft(u, n, d, x, 0) == Sum(u.ring, n, x)
  {
    WZero(u, n);
    forall j | 0 <= j < n ensures DftTerms(u, n, d, x, 0)(j) == x(j) {
      MulLaws(u.ring, x(j), x(j), x(j));
    }
    SumExt(u.ring, n, DftTerms(u, n, d, x, 0), x);
  }

  // ----- inversion

  function InversionTable<T>(u: Roots<T>, n: int, d: int, c: int -> T, s: int): int -> int -> T {
    k => t => u.ring.mul(c(t), u.w(n, k * (d * (t - s))))
  }

  lemma InversionRow<T(!new)>(u: Roots<T>, n: pos, d: sign, c: int -> T, s: int, k: int)
    requires IsRoots(u) && Divides(n, u.order)
    ensures DftTerms(u, n, Opposite(d), Spectrum(u, n, d, c), s)(k)
         == Sum(u.ring, n, InversionTable(u, n, d, c, s)(k))
  {
    var r, f := u.ring, InversionTable(u, n, d, c, s)(k);
    var w := u.w(n, Phase(Opposite(d), k, s));
    forall t | 0 <= t < n ensures f(t) == r.mul(DftTerms(u, n, d, c, k)(t), w) {
      assert k * (d * (t - s)) == Phase(d, t, k) + Phase(Opposite(d), k, s);
      WAdd(u, n, Phase(d, t, k), Phase(Opposite(d), k, s));
      MulLaws(r, c(t), u.w(n, Phase(d, t, k)), w);
    }
    SumScaleRight(r, n, DftTerms(u, n, d, c, k), w, f);
  }

  lemma InversionColumn<T(!new)>(u: Roots<T>, n: pos, d: sign, c: int -> T, s: int, t: int)
    requires IsRoots(u) && Divides(n, u.order)
    requires 0 <= s < n && 0 <= t < n
    ensures Sum(u.ring, n, Col(InversionTable(u, n, d, c, s), t))
         == if t == s then Times(u.ring, n, c(s)) else u.ring.zero
  {
    var r, e := u.ring, d * (t - s);
    SumScale(r, n, c(t), Powers(u, n, e));
    SumExt(r, n, k => r.mul(c(t), Powers(u, n, e)(k)), Col(InversionTable(u, n, d, c, s), t));
    Orthogonality(u, n, e);
    if t == s {
      ModUnique(e, n, 0, 0);
      TimesScale(r, n, c(t), r.one);
      MulLaws(r, c(t), c(t), c(t));
    } else {
      if 0 < e < n { ModUnique(e, n, 0, e); } else { ModUnique(e, n, -1, e + n); }
      MulZero(r, c(t));
    }
  }

  /** The backward transform of the forward transform is n times the input. */
  lemma Inversion<T(!new)>(u: Roots<T>, n: pos, d: sign, c: int -> T, s: int)
    requires IsRoots(u) && Divides(n, u.order)
    requires 0 <= s < n
    ensures Dft(u, n, Opposite(d), Spectrum(u, n, d, c), s) == Times(u.ring, n, c(s))
  {
    var table := InversionTable(u, n, d, c, s);
    var rows := DftTerms(u, n, Opposite(d), Spectrum(u, n, d, c), s);
    var cols := (t: int) => if t == s then Times(u.ring, n, c(s)) else u.ring.zero;
    forall k | 0 <= k < n ensures rows(k) == Sum(u.ring, n, table(k)) {
      InversionRow(u, n, d, c, s, k);
    }
    forall t | 0 <= t < n ensures cols(t) == Sum(u.ring, n, Col(table, t)) {
      InversionColumn(u, n, d, c, s, t);
    }
    SumTable(u.ring, n, n, table, rows, cols);
    SumSingle(u.ring, n, s, cols);
  }

  // ----- convolution

  function ConvolveTerms<T>(r: Ring<T>, n: pos, a: int -> T, b: int -> T, t: int): int -> T {
    q => r.mul(a(q), b(Mod(t - q, n)))
  }

  /** Element t of the cyclic convolution of length n. */
  function Convolve<T>(r: Ring<T>, n: pos, a: int -> T, b: int -> T, t: int): T {
    Sum(r, n, ConvolveTerms(r, n, a, b, t))
  }

  function Convolution<T>(r: Ring<T>, n: pos, a: int -> T, b: int -> T): int -> T {
    t => Convolve(r, n, a, b, t)
  }

  function Pointwise<T>(r: Ring<T>, a: int -> T, b: int -> T): int -> T { k => r.mul(a(k), b(k)) }

  function Rotate(n: pos, q: int): int -> int { t => Mod(t - q, n) }

  lemma RotateBack(n: pos, q: int, t: int)
    requires 0 <= t < n
    ensures 0 <= Rotate(n, q)(t) < n && Rotate(n, -q)(Rotate(n, q)(t)) == t
  {
    var p, z := Mod(t - q, n), (t - q) / n;
    ModSplit(t - q, n);
    ModShift(t, n, -z);
    ModUnique(t, n, 0, t);
    assert Mod(p + q, n) == t;
    assert Rotate(n, q)(t) == p;
  }

  lemma RotateInverse(n: pos, q: int, m: int)
    requires q + m == 0
    ensures Inverse(n, Rotate(n, q), Rotate(n, m))
  {
    var f, g := Rotate(n, q), Rotate(n, m);
    assert m == -q && q == -m;
    hide Rotate;
    forall t | 0 <= t < n ensures 0 <= f(t) < n && g(f(t)) == t { RotateBack(n, q, t); }
    forall t | 0 <= t < n ensures 0 <= g(t) < n && f(g(t)) == t { RotateBack(n, m, t); }
  }

  function ConvolutionTable<T>(u: Roots<T>, n: pos, d: int, a: int -> T, b: int -> T, k: int): int -> int -> T {
    q => t => u.ring.mul(Compose(DftTerms(u, n, d, b, k), Rotate(n, q))(t), DftTerms(u, n, d, a, k)(q))
  }

  lemma PhaseSum(d: sign, q: int, p: int, n: int, z: int, k: int)
    ensures Phase(d, q, k) + Phase(d, p, k) == Phase(d, q + p + n * z, k) + n * -(Phase(d, z, k))
  {
    assert (q + p + n * z) * k == q * k + p * k + n * (z * k);
  }

  lemma ConvolutionTerm<T(!new)>(u: Roots<T>, n: pos, d: sign, x: T, y: T, k: int, q: int, t: int, p: int, z: int)
    requires IsRoots(u) && Divides(n, u.order)
    requires t == q + p + n * z
    ensures u.ring.mul(u.ring.mul(x, u.w(n, Phase(d, q, k))), u.ring.mul(y, u.w(n, Phase(d, p, k))))
         == u.ring.mul(u.ring.mul(x, y), u.w(n, Phase(d, t, k)))
  {
    hide Divides;
    MulExchange(u.ring, x, u.w(n, Phase(d, q, k)), y, u.w(n, Phase(d, p, k)));
    WAdd(u, n, Phase(d, q, k), Phase(d, p, k));
    PhaseSum(d, q, p, n, z, k);
    WPeriod(u, n, Phase(d, t, k), -(Phase(d, z, k)));
  }

  lemma RotatedTerm<T>(u: Roots<T>, n: pos, d: int, b: int -> T, k: int, q: int, t: int, p: int)
    requires p == Mod(t - q, n)
    ensures Compose(DftTerms(u, n, d, b, k), Rotate(n, q))(t) == u.ring.mul(b(p), u.w(n, Phase(d, p, k)))
  {
    hide Mod, Phase;
    assert Rotate(n, q)(t) == p;
    assert Compose(DftTerms(u, n, d, b, k), Rotate(n, q))(t) == DftTerms(u, n, d, b, k)(p);
  }

  lemma Commuted<T(!new)>(u: Roots<T>, x: T, y: T)
    requires IsRoots(u)
    ensures u.ring.mul(x, y) == u.ring.mul(y, x)
  {
    MulLaws(u.ring, x, y, y);
  }

  lemma ConvolutionEntry<T(!new)>(u: Roots<T>, n: pos, d: sign, a: int -> T, b: int -> T, k: int, q: int, t: int)
    requires IsRoots(u) && Divides(n, u.order)
    ensures Col(ConvolutionTable(u, n, d, a, b, k), t)(q)
         == u.ring.mul(ConvolveTerms(u.ring, n, a, b, t)(q), u.w(n, Phase(d, t, k)))
  {
    hide Mod, Divides, Phase, Rotate, Compose, IsRoots, IsRing;
    var p := Mod(t - q, n);
    var x, y := u.ring.mul(a(q), u.w(n, Phase(d, q, k))), u.ring.mul(b(p), u.w(n, Phase(d, p, k)));
    ModSplit(t - q, n);
    ConvolutionTerm(u, n, d, a(q), b(p), k, q, t, p, (t - q) / n);
    Commuted(u, x, y);
    RotatedTerm(u, n, d, b, k, q, t, p);
  }

  lemma ConvolutionRow<T(!new)>(u: Roots<T>, n: pos, d: sign, a: int -> T, b: int -> T, k: int, q: int)
    requires IsRoots(u) && Divides(n, u.order)
    ensures u.ring.mul(DftTerms(u, n, d, a, k)(q), Dft(u, n, d, b, k))
         == Sum(u.ring, n, ConvolutionTable(u, n, d, a, b, k)(q))
  {
    var r, w, f, m := u.ring, DftTerms(u, n, d, a, k)(q), DftTerms(u, n, d, b, k), -q;
    var h := Compose(f, Rotate(n, q));
    var g := ConvolutionTable(u, n, d, a, b, k)(q);
    forall t | 0 <= t < n ensures g(t) == r.mul(h(t), w) {}
    hide Rotate, DftTerms, Compose, ConvolutionTable;
    RotateInverse(n, q, m);
    SumReorder(r, n, Rotate(n, q), Rotate(n, m), f);
    SumScaleRight(r, n, h, w, g);
    MulLaws(r, Sum(r, n, f), w, w);
  }

  /** The transform of a cyclic convolution is the product of the transforms. */
  lemma ConvolutionTheorem<T(!new)>(u: Roots<T>, n: pos, d: sign, a: int -> T, b: int -> T, k: int)
    requires IsRoots(u) && Divides(n, u.order)
    ensures u.ring.mul(Dft(u, n, d, a, k), Dft(u, n, d, b, k)) == Dft(u, n, d, Convolution(u.ring, n, a, b), k)
  {
    hide Mod, Divides, Phase, ConvolutionTable, ConvolveTerms;
    var r, table := u.ring, ConvolutionTable(u, n, d, a, b, k);
    var rows := q => r.mul(DftTerms(u, n, d, a, k)(q), Dft(u, n, d, b, k));
    var cols := DftTerms(u, n, d, Convolution(r, n, a, b), k);
    forall q | 0 <= q < n ensures rows(q) == Sum(r, n, table(q)) {
      ConvolutionRow(u, n, d, a, b, k, q);
    }
    forall t | 0 <= t < n ensures cols(t) == Sum(r, n, Col(table, t)) {
      forall q | 0 <= q < n
        ensures Col(table, t)(q) == r.mul(ConvolveTerms(r, n, a, b, t)(q), u.w(n, Phase(d, t, k)))
      {
        ConvolutionEntry(u, n, d, a, b, k, q, t);
      }
      SumScaleRight(r, n, ConvolveTerms(r, n, a, b, t), u.w(n, Phase(d, t, k)), Col(table, t));
    }
    SumTable(r, n, n, table, rows, cols);
    SumScaleRight(r, n, DftTerms(u, n, d, a, k), Dft(u, n, d, b, k), rows);
  }

  /** Transform, multiply, transform back: n times the cyclic convolution. */
  lemma ConvolveByTransforms<T(!new)>(u: Roots<T>, n: pos, d: sign, a: int -> T, b: int -> T, s: int)
    requires IsRoots(u) && Divides(n, u.order)
    requires 0 <= s < n
    ensures Dft(u, n, Opposite(d), Pointwise(u.ring, Spectrum(u, n, d, a), Spectrum(u, n, d, b)), s)
         == Times(u.ring, n, Convolve(u.ring, n, a, b, s))
  {
    var c := Convolution(u.ring, n, a, b);
    var ab := Pointwise(u.ring, Spectrum(u, n, d, a), Spectrum(u, n, d, b));
    forall k | 0 <= k < n ensures ab(k) == Spectrum(u, n, d, c)(k) {
      ConvolutionTheorem(u, n, d, a, b, k);
    }
    DftExt(u, n, Opposite(d), ab, Spectrum(u, n, d, c), s);
    Inversion(u, n, d, c, s);
  }

  // ----- decimation in time

  /** Subsequence j of x with step r. */
  function Every<T>(x: int -> T, r: int, j: int): int -> T { t => x(Ix(r, j, t)) }

  function KernelTerms<T>(u: Roots<T>, n: int, d: int, x: int -> T, tw: int -> T, k: int): int -> T {
    j => u.ring.mul(u.ring.mul(x(j), tw(j)), u.w(n, Phase(d, j, k)))
  }

  /** Output k of a length-n transform of x with its inputs multiplied by tw. */
  function KernelValue<T>(u: Roots<T>, n: nat, d: int, x: int -> T, tw: int -> T, k: int): T {
    Sum(u.ring, n, KernelTerms(u, n, d, x, tw, k))
  }

  /** The twiddle factors of column i in a transform of total length n. */
  function Twiddles<T>(u: Roots<T>, n: int, d: int, i: int): int -> T { j => u.w(n, Phase(d, i, j)) }

  /** Output i of the transforms of the r interleaved subsequences of x. */
  function SubOutputs<T>(u: Roots<T>, r: int, m: nat, d: int, x: int -> T, i: int): int -> T {
    j => Dft(u, m, d, Every(x, r, j), i)
  }

  lemma PhaseSplit(d: sign, r: int, m: int, j: int, t: int, i: int, k: int)
    ensures Phase(d, Ix(r, j, t), Ix(m, i, k)) ==
            Phase(d, i, j) + m * (Phase(d, j, k)) + r * (Phase(d, t, i)) + (r * m) * (Phase(d, t, k))
  {
    calc {
      (j + r * t) * (i + m * k);
      j * i + j * (m * k) + (r * t) * i + (r * t) * (m * k);
      { assert j * (m * k) == m * (j * k); }
      { assert (r * t) * i == r * (t * i); }
      { Exchange(r, t, m, k); }
      i * j + m * (j * k) + r * (t * i) + (r * m) * (t * k);
    }
  }

  lemma StagePhase<T(!new)>(u: Roots<T>, r: pos, m: pos, d: sign, j: int, t: int, i: int, k: int)
    requires IsRoots(u) && Divides(r * m, u.order)
    ensures u.w(r * m, Phase(d, Ix(r, j, t), Ix(m, i, k)))
         == u.ring.mul(u.w(m, Phase(d, t, i)), u.ring.mul(u.w(r * m, Phase(d, i, j)), u.w(r, Phase(d, j, k))))
  {
    var n: pos := r * m;
    var A, B, C := Phase(d, i, j), m * (Phase(d, j, k)), r * (Phase(d, t, i));
    PhaseSplit(d, r, m, j, t, i, k);
    hide Divides, Ix;
    WPeriod(u, n, A + B + C, Phase(d, t, k));
    WAdd(u, n, A + B, C);
    WAdd(u, n, A, B);
    WRefine(u, r, m, Phase(d, j, k));
    assert m * r == n;
    WRefine(u, m, r, Phase(d, t, i));
    MulLaws(u.ring, u.ring.mul(u.w(n, A), u.w(r, Phase(d, j, k))), u.w(m, Phase(d, t, i)), u.ring.one);
  }

  lemma StageRow<T(!new)>(u: Roots<T>, r: pos, m: pos, d: sign, x: int -> T, i: int, k: int, j: int)
    requires IsRoots(u) && Divides(r * m, u.order)
    ensures KernelTerms(u, r, d, SubOutputs(u, r, m, d, x, i), Twiddles(u, r * m, d, i), k)(j)
         == Sum(u.ring, m, Every(DftTerms(u, r * m, d, x, Ix(m, i, k)), r, j))
  {
    hide Divides;
    var g, n := u.ring, r * m;
    var c := g.mul(u.w(n, Phase(d, i, j)), u.w(r, Phase(d, j, k)));
    var f := DftTerms(u, m, d, Every(x, r, j), i);
    var h := Every(DftTerms(u, n, d, x, Ix(m, i, k)), r, j);
    MulLaws(g, Sum(g, m, f), u.w(n, Phase(d, i, j)), u.w(r, Phase(d, j, k)));
    forall t | 0 <= t < m ensures h(t) == g.mul(f(t), c) {
      StagePhase(u, r, m, d, j, t, i, k);
      MulLaws(g, x(Ix(r, j, t)), u.w(m, Phase(d, t, i)), c);
    }
    SumScaleRight(g, m, f, c, h);
  }

  /** Decimation in time: output i + m k of a length r m transform is output k of a twiddled
      length-r transform of the outputs i of its r interleaved subsequences.
   */
  lemma CooleyTukey<T(!new)>(u: Roots<T>, r: pos, m: pos, d: sign, x: int -> T, i: int, k: int)
    requires IsRoots(u) && Divides(r * m, u.order)
    ensures Dft(u, r * m, d, x, Ix(m, i, k))
         == KernelValue(u, r, d, SubOutputs(u, r, m, d, x, i), Twiddles(u, r * m, d, i), k)
  {
    hide Divides;
    var g, n := u.ring, r * m;
    var f := DftTerms(u, n, d, x, Ix(m, i, k));
    SumRows(g, r, m, f);
    var table := (j: int) => (t: int) => f(Ix(r, j, t));
    var rows := KernelTerms(u, r, d, SubOutputs(u, r, m, d, x, i), Twiddles(u, n, d, i), k);
    var cols := RowSums(g, r, f);
    forall j | 0 <= j < r ensures rows(j) == Sum(g, m, table(j)) {
      StageRow(u, r, m, d, x, i, k, j);
      SumExt(g, m, table(j), Every(f, r, j));
    }
    forall t | 0 <= t < m ensures cols(t) == Sum(g, r, Col(table, t)) {
      SumExt(g, r, IxRow(r, f, t), Col(table, t));
    }
    SumTable(g, r, m, table, rows, cols);
  }
}
