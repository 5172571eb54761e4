/** What the convolution between packing and unpacking a buffer computes. */
module Convolutions {
  import opened Integers
  import opened Algebra
  import opened Roots
  import opened Transform
  import opened Memory
  import opened Generator
  import opened Rader
  import opened Bluestein
  import opened Plans
  import opened Buffers

  /** The transform of x times the stored transform of the kernel. */
  function Products<T>(u: Roots<T>, m: nat, x: int -> T, bfft: seq<T>): int -> T {
    k => u.ring.mul(Dft(u, m, -1, x, k), Get(u.ring.zero, bfft, k))
  }

  /** Every column of the buffer was transformed, multiplied and transformed back. */
  ghost predicate Convolved<T(!new)>(u: Roots<T>, m: nat, howmany: int, bfft: seq<T>, before: seq<T>, after: seq<T>) {
    var l := Interleaved(howmany);
    && OnlyTouched(l, howmany, m, before, after)
    && forall h, k {:trigger l.At(h, k)} :: 0 <= h < howmany && 0 <= k < m && 0 <= l.At(h, k) < |after| ==>
         after[l.At(h, k)] == Dft(u, m, 1, Products(u, m, Column(u, before, l, h), bfft), k)
  }

  /** Every column was multiplied by the stored transform. */
  ghost predicate Multiplied<T(!new)>(u: Roots<T>, m: nat, howmany: int, bfft: seq<T>, before: seq<T>, after: seq<T>) {
    var l := Interleaved(howmany);
    && |bfft| == m
    && OnlyTouched(l, howmany, m, before, after)
    && forall h, k {:trigger l.At(h, k)} :: 0 <= h < howmany && 0 <= k < m && 0 <= l.At(h, k) < |before| ==>
         after[l.At(h, k)] == u.ring.mul(before[l.At(h, k)], bfft[k])
  }

  lemma ConvolvedIntro<T(!new)>(u: Roots<T>, m: nat, howmany: pos, bfft: seq<T>, s0: seq<T>, s1: seq<T>, s2: seq<T>, s3: seq<T>)
    requires |s0| >= m * howmany && OnlyTouched(Interleaved(howmany), howmany, m, s0, s1)
    requires Solved(u, BatchProblem(m, howmany, -1), s0, Interleaved(howmany), s1, Interleaved(howmany))
    requires Multiplied(u, m, howmany, bfft, s1, s2)
    requires Solved(u, BatchProblem(m, howmany, 1), s2, Interleaved(howmany), s3, Interleaved(howmany))
    requires OnlyTouched(Interleaved(howmany), howmany, m, s2, s3)
    ensures Convolved(u, m, howmany, bfft, s0, s3)
  {
    var l := Interleaved(howmany);
    InterleavedRoom(howmany, m, |s0|);
    hide Layout.At;
    forall h, k {:trigger l.At(h, k)} | 0 <= h < howmany && 0 <= k < m
      ensures s3[l.At(h, k)] == Dft(u, m, 1, Products(u, m, Column(u, s0, l, h), bfft), k)
    {
      var f, g := Column(u, s2, l, h), Products(u, m, Column(u, s0, l, h), bfft);
      forall j | 0 <= j < m ensures f(j) == g(j) {
        assert 0 <= l.At(h, j) < |s0|;
      }
      DftExt(u, m, 1, f, g, k);
    }
  }

  /** Products of the packed column are products of the transforms of pack and kernel. */
  lemma ProductsExt<T(!new)>(u: Roots<T>, m: nat, x: int -> T, y: int -> T, b: int -> T, bfft: seq<T>, k: int)
    requires forall j :: 0 <= j < m ==> x(j) == y(j)
    requires |bfft| == m && forall j :: 0 <= j < m ==> bfft[j] == Dft(u, m, -1, b, j)
    ensures Dft(u, m, 1, Products(u, m, x, bfft), k) == Dft(u, m, 1, Pointwise(u.ring, Spectrum(u, m, -1, y), Spectrum(u, m, -1, b)), k)
  {
    var f, g := Products(u, m, x, bfft), Pointwise(u.ring, Spectrum(u, m, -1, y), Spectrum(u, m, -1, b));
    forall j | 0 <= j < m ensures f(j) == g(j) {
      DftExt(u, m, -1, x, y, j);
    }
    DftExt(u, m, 1, f, g, k);
  }

  /** A length-n transform of the weighted input is the twiddled transform of the kernels. */
  lemma WeightedDft<T(!new)>(u: Roots<T>, n: nat, d: int, x: int -> T, tw: int -> T, k: int)
    ensures Dft(u, n, d, Input(u, x, tw), k) == KernelValue(u, n, d, x, tw, k)
  {
    SumExt(u.ring, n, DftTerms(u, n, d, Input(u, x, tw), k), KernelTerms(u, n, d, x, tw, k));
  }

  /** The convolved column of a packed member y, as the convolution theorem has it. */
  lemma ConvolvedColumn<T(!new)>(u: Roots<T>, m: nat, howmany: pos, h: int, y: int -> T, b: int -> T, bfft: seq<T>,
                                 before: seq<T>, after: seq<T>, k: int)
    requires 0 <= h < howmany && 0 <= k < m && |before| >= m * howmany
    requires forall j {:trigger Interleaved(howmany).At(h, j)} :: 0 <= j < m ==>
               0 <= Interleaved(howmany).At(h, j) < |before| && before[Interleaved(howmany).At(h, j)] == y(j)
    requires |bfft| == m && forall j :: 0 <= j < m ==> bfft[j] == Dft(u, m, -1, b, j)
    requires Convolved(u, m, howmany, bfft, before, after)
    ensures Get(u.ring.zero, after, Interleaved(howmany).At(h, k))
         == Dft(u, m, 1, Pointwise(u.ring, Spectrum(u, m, -1, y), Spectrum(u, m, -1, b)), k)
  {
    var l := Interleaved(howmany);
    hide Layout.At;
    var c := Column(u, before, l, h);
    forall j | 0 <= j < m ensures c(j) == y(j) {
      assert 0 <= l.At(h, j) < |before|;
    }
    ProductsExt(u, m, c, y, b, bfft, k);
    assert 0 <= l.At(h, k) < |before|;
  }

  /** What unpacking makes of a packed and convolved member is its transform. */
  lemma RaderMember<T(!new)>(u: Roots<T>, n: int, d: sign, perm: seq<int>, rev: seq<int>, bfft: seq<T>,
                             howmany: pos, h: int, x: int -> T, before: seq<T>, after: seq<T>, v: int)
    requires IsRoots(u) && n > 2 && Divides(n, u.order) && Divides(n - 1, u.order)
    requires RaderTables(n, perm, rev) && RaderSpectrum(u, n, d, perm, bfft)
    requires 0 <= h < howmany && 0 <= v < n && |before| >= (n - 1) * howmany
    requires ColumnPacked(before, howmany, h, n - 1, perm, x)
    requires Convolved(u, n - 1, howmany, bfft, before, after)
    ensures Unpacked(u, after, howmany, h, x(0), u.ring.add(x(0), Sum(u.ring, n - 1, Packed(x, perm))), rev, v)
         == Dft(u, n, d, x, v)
  {
    if v == 0 {
      RaderZero(u, n, d, perm, rev, x);
    } else {
      var m := n - 1;
      InterleavedRoom(howmany, m, |before|);
      var b: int -> T :| IsKernel(u, n, d, perm, b) && forall k :: 0 <= k < m ==> bfft[k] == Dft(u, m, -1, b, k);
      assert 0 <= rev[v] < m;
      RaderIsDft(u, n, d, perm, rev, x, b, v);
      hide Layout.At, Mod, Divides, IsRoots, RaderTables, IsKernel, Dft, Packed, Convolved;
      ConvolvedColumn(u, m, howmany, h, Packed(x, perm), b, bfft, before, after, rev[v]);
    }
  }

  lemma BluesteinMember<T(!new)>(u: Roots<T>, n: pos, d: sign, pad: int, w: seq<T>, bfft: seq<T>,
                                 howmany: pos, h: int, x: int -> int -> T, before: seq<T>, after: seq<T>, k: int)
    requires IsRoots(u) && Divides(2 * n, u.order) && pad > 0 && Divides(pad, u.order)
    requires ChirpSpectrum(u, n, d, pad, w, bfft)
    requires 0 <= h < howmany && 0 <= k < n && |before| >= pad * howmany
    requires ChirpPacked(u, before, n, d, pad, howmany, x)
    requires Convolved(u, pad, howmany, bfft, before, after)
    ensures u.ring.mul(Get(u.ring.zero, after, Interleaved(howmany).At(h, k)), w[k]) == Dft(u, n, d, x(h), k)
  {
    InterleavedRoom(howmany, pad, |before|);
    hide Layout.At, Mod, Divides, Chirp, Chirped, Convolved;
    var b: int -> T :| IsChirpKernel(u, n, d, pad, b) && forall k :: 0 <= k < pad ==> bfft[k] == Dft(u, pad, -1, b, k);
    BluesteinIsDft(u, n, d, pad, x(h), b, k);
    ConvolvedColumn(u, pad, howmany, h, Chirped(u, n, d, x(h)), b, bfft, before, after, k);
  }

  /** Packing, convolving and unpacking a batch by Rader's algorithm acts like a base kernel. */
  lemma RaderKerneled<T(!new)>(u: Roots<T>, n: int, d: sign, perm: seq<int>, rev: seq<int>, bfft: seq<T>, howmany: pos,
                               xs: seq<T>, xl: Layout, tw: int -> int -> T, before: seq<T>, after: seq<T>, ys: seq<T>, yl: Layout)
    requires IsRoots(u) && n > 2 && Divides(n, u.order) && Divides(n - 1, u.order)
    requires RaderTables(n, perm, rev) && RaderSpectrum(u, n, d, perm, bfft)
    requires |before| >= (n + 1) * howmany
    requires RaderPacked(u, before, howmany, n - 1, perm, Inputs(u, xs, xl, tw))
    requires Convolved(u, n - 1, howmany, bfft, before, after)
    requires forall h, v {:trigger yl.At(h, v)} :: 0 <= h < howmany && 0 <= v < n && 0 <= yl.At(h, v) < |ys| ==>
               ys[yl.At(h, v)] == Unpacked(u, after, howmany, h, Get(u.ring.zero, after, Interleaved(howmany).At(h, n - 1)),
                                           Get(u.ring.zero, after, Interleaved(howmany).At(h, n)), rev, v)
    ensures Kerneled(u, n, d, xs, xl, ys, yl, howmany, tw)
  {
    assert (n - 1) * howmany <= (n + 1) * howmany;
    InterleavedRoom(howmany, n + 1, |before|);
    hide Layout.At, RaderTables, RaderSpectrum, Divides, IsRoots, Unpacked, KernelValue, Dft, ColumnPacked, Inputs;
    forall h, v {:trigger yl.At(h, v)} | 0 <= h < howmany && 0 <= v < n && 0 <= yl.At(h, v) < |ys|
      ensures ys[yl.At(h, v)] == KernelValue(u, n, d, Column(u, xs, xl, h), tw(h), v)
    {
      var x := Inputs(u, xs, xl, tw)(h);
      SavedRow(u, n - 1, howmany, bfft, before, after, h, n - 1);
      SavedRow(u, n - 1, howmany, bfft, before, after, h, n);
      RaderMember(u, n, d, perm, rev, bfft, howmany, h, x, before, after, v);
      InputColumn(u, xs, xl, tw, h);
      WeightedDft(u, n, d, Column(u, xs, xl, h), tw(h), v);
    }
  }

  lemma InputColumn<T>(u: Roots<T>, xs: seq<T>, xl: Layout, tw: int -> int -> T, h: int)
    ensures Inputs(u, xs, xl, tw)(h) == Input(u, Column(u, xs, xl, h), tw(h))
  {
  }

  /** The convolution leaves the rows past the packed ones alone. */
  lemma SavedRow<T(!new)>(u: Roots<T>, m: nat, howmany: pos, bfft: seq<T>, before: seq<T>, after: seq<T>, h: int, k: int)
    requires Convolved(u, m, howmany, bfft, before, after)
    requires 0 <= h < howmany && m <= k < m + 2 && |before| >= (m + 2) * howmany
    ensures 0 <= Interleaved(howmany).At(h, k) < |before|
    ensures Get(u.ring.zero, after, Interleaved(howmany).At(h, k)) == before[Interleaved(howmany).At(h, k)]
  {
    var l := Interleaved(howmany);
    InterleavedRoom(howmany, m + 2, |before|);
    hide Layout.At;
    assert !Touches(l, howmany, m, l.At(h, k));
  }

  lemma BluesteinKerneled<T(!new)>(u: Roots<T>, n: pos, d: sign, pad: int, w: seq<T>, bfft: seq<T>, howmany: pos,
                                   xs: seq<T>, xl: Layout, tw: int -> int -> T, before: seq<T>, after: seq<T>, ys: seq<T>, yl: Layout)
    requires IsRoots(u) && Divides(2 * n, u.order) && pad > 0 && Divides(pad, u.order)
    requires ChirpSpectrum(u, n, d, pad, w, bfft) && |before| >= pad * howmany
    requires ChirpPacked(u, before, n, d, pad, howmany, Inputs(u, xs, xl, tw))
    requires Convolved(u, pad, howmany, bfft, before, after)
    requires forall h, k {:trigger yl.At(h, k)} :: 0 <= h < howmany && 0 <= k < n && 0 <= yl.At(h, k) < |ys| ==>
               ys[yl.At(h, k)] == u.ring.mul(Get(u.ring.zero, after, Interleaved(howmany).At(h, k)), w[k])
    ensures Kerneled(u, n, d, xs, xl, ys, yl, howmany, tw)
  {
    hide Layout.At, Divides, IsRoots, KernelValue, Dft, ChirpPacked, Inputs, Convolved;
    forall h, k {:trigger yl.At(h, k)} | 0 <= h < howmany && 0 <= k < n && 0 <= yl.At(h, k) < |ys|
      ensures ys[yl.At(h, k)] == KernelValue(u, n, d, Column(u, xs, xl, h), tw(h), k)
    {
      BluesteinMember(u, n, d, pad, w, bfft, howmany, h, Inputs(u, xs, xl, tw), before, after, k);
      InputColumn(u, xs, xl, tw, h);
      WeightedDft(u, n, d, Column(u, xs, xl, h), tw(h), k);
    }
  }
}
