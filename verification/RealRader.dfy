/** The twiddled Rader stage of a real transform: it rebuilds the columns above half by conjugation
    and unpacks only what belongs to the half spectrum.
 */
module RealRader {
  import opened Integers
  import opened Algebra
  import opened Roots
  import opened Transform
  import opened Memory
  import opened Twiddle
  import opened Generator
  import opened Rader
  import opened Plans
  import opened Buffers
  import opened Convolutions
  import opened ScratchMemory
  import opened Execution
  import opened RealSpectrum
  import opened RealStages
  import opened RealPlans

  // ----- a rebuilt column

  /** Column h of m, or the conjugate of its mirror. */
  function Rebuilt<T>(u: Roots<T>, m: int, sub: int -> int -> T, h: int): int -> T {
    j => if 2 * h <= m then sub(h)(j) else u.conj(sub(m - h)(j))
  }

  lemma MirrorPhase(d: sign, r: int, m: int, h: int, k: int, j: int)
    ensures -Phase(d, m - h, j) == Phase(d, h, j) + m * (0 - d * j)
    ensures -Phase(d, j, r - 1 - k) == Phase(d, j, k) + d * j + r * (0 - d * j)
  {
    assert (m - h) * j == m * j - h * j;
    assert j * (r - 1 - k) == r * j - j - j * k;
    assert d * (m * j) == m * (d * j) && d * (r * j) == r * (d * j);
  }

  lemma MirrorFactors<T(!new)>(u: Roots<T>, r: pos, m: pos, d: sign, h: int, k: int, j: int)
    requires IsRoots(u) && Divides(r * m, u.order)
    ensures u.ring.mul(u.w(r * m, -Phase(d, m - h, j)), u.w(r, -Phase(d, j, r - 1 - k)))
         == u.ring.mul(u.w(r * m, Phase(d, h, j)), u.w(r, Phase(d, j, k)))
  {
    var n, q := r * m, d * j;
    MirrorPhase(d, r, m, h, k, j);
    DividesFactor(r, m, u.order);
    RootsRing(u);
    hide Divides, Phase, IsRoots, IsRing;
    WAdd(u, n, Phase(d, h, j), m * (0 - q));
    WRefine(u, r, m, 0 - q);
    WPeriod(u, r, Phase(d, j, k) + q, 0 - q);
    WAdd(u, r, Phase(d, j, k), q);
    WAdd(u, r, 0 - q, q);
    WZero(u, r);
    FactorsCancel(u.ring, u.w(n, Phase(d, h, j)), u.w(r, Phase(d, j, k)), u.w(r, 0 - q), u.w(r, q));
  }

  lemma FactorsCancel<T(!new)>(g: Ring<T>, a: T, b: T, c: T, e: T)
    requires IsRing(g) && g.mul(c, e) == g.one
    ensures g.mul(g.mul(a, c), g.mul(b, e)) == g.mul(a, b)
  {
    MulExchange(g, a, c, b, e);
    MulLaws(g, g.mul(a, b), g.mul(c, e), g.one);
  }

  lemma RootsRing<T(!new)>(u: Roots<T>)
    requires IsRoots(u)
    ensures IsRing(u.ring)
  {
  }

  /** The wanted outputs are those of the rebuilt column with its own twiddle factors. */
  lemma RebuiltOutput<T(!new)>(u: Roots<T>, r: pos, m: pos, d: sign, sub: int -> int -> T, h: int, k: int)
    requires IsRoots(u) && IsConjugation(u) && Divides(r * m, u.order)
    ensures HalfOutput(u, r, m, d, sub, h, k) == KernelValue(u, r, d, Rebuilt(u, m, sub, h), Twiddles(u, r * m, d, h), k)
  {
    RootsRing(u);
    var n, col := r * m, Rebuilt(u, m, sub, h);
    var g := KernelTerms(u, r, d, col, Twiddles(u, n, d, h), k);
    DividesFactor(r, m, u.order);
    hide Divides, Phase, IsRoots;
    if 2 * h <= m {
      SumExt(u.ring, r, KernelTerms(u, r, d, sub(h), Twiddles(u, n, d, h), k), g);
    } else {
      var f := KernelTerms(u, r, d, sub(m - h), Twiddles(u, n, d, m - h), r - 1 - k);
      forall j | 0 <= j < r ensures g(j) == u.conj(f(j)) {
        MirrorTerm(u, r, m, d, sub(m - h)(j), h, k, j);
      }
      SumConj(u, r, f, g);
    }
  }

  lemma MirrorTerm<T(!new)>(u: Roots<T>, r: pos, m: pos, d: sign, x: T, h: int, k: int, j: int)
    requires IsRoots(u) && IsConjugation(u) && Divides(r * m, u.order) && Divides(r, u.order)
    ensures var n := r * m;
      u.conj(u.ring.mul(u.ring.mul(x, u.w(n, Phase(d, m - h, j))), u.w(r, Phase(d, j, r - 1 - k))))
      == u.ring.mul(u.ring.mul(u.conj(x), u.w(n, Phase(d, h, j))), u.w(r, Phase(d, j, k)))
  {
    var n := r * m;
    var a, b := u.w(n, Phase(d, m - h, j)), u.w(r, Phase(d, j, r - 1 - k));
    RootsRing(u);
    MirrorFactors(u, r, m, d, h, k, j);
    hide Divides, Phase;
    WConj(u, n, Phase(d, m - h, j));
    WConj(u, r, Phase(d, j, r - 1 - k));
    hide IsRoots;
    ConjLaws(u, u.ring.mul(x, a), b);
    ConjLaws(u, x, a);
    MulLaws(u.ring, u.conj(x), u.conj(a), u.conj(b));
    MulLaws(u.ring, u.conj(x), u.w(n, Phase(d, h, j)), u.w(r, Phase(d, j, k)));
  }

  // ----- packing

  function Columns<T>(u: Roots<T>, xs: seq<T>, xl: Layout): int -> int -> T { h => Column(u, xs, xl, h) }

  /** Rebuilt columns multiplied by their twiddle factors. */
  function RealInputs<T>(u: Roots<T>, m: int, xs: seq<T>, xl: Layout, tw: int -> int -> T): int -> int -> T {
    h => Input(u, Rebuilt(u, m, Columns(u, xs, xl), h), tw(h))
  }

  /** Element j of a rebuilt column, as the loops read it: column 0 without a factor. */
  lemma RealElementRead<T(!new)>(u: Roots<T>, m: int, xs: seq<T>, xl: Layout, tw: int -> int -> T, h: int, j: int)
    requires IsRing(u.ring) && ChirpFactors(u, true, tw)
    ensures var v := if 2 * h <= m then Get(u.ring.zero, xs, xl.At(h, j)) else u.conj(Get(u.ring.zero, xs, xl.At(m - h, j)));
      RealInputs(u, m, xs, xl, tw)(h)(j) == if h == 0 || j == 0 then v else u.ring.mul(v, tw(h)(j))
  {
    assert Weighed(h, j);
    var v := if 2 * h <= m then Get(u.ring.zero, xs, xl.At(h, j)) else u.conj(Get(u.ring.zero, xs, xl.At(m - h, j)));
    MulLaws(u.ring, v, v, v);
  }

  /** The columns up to half are within the array. */
  ghost predicate HalfWithin(xl: Layout, m: int, n: int, len: int) {
    forall h, j {:trigger xl.At(h, j)} :: 0 <= h && 2 * h <= m && 0 <= j < n ==> 0 <= xl.At(h, j) < len
  }

  method PackRealMember<T(!new)>(u: Roots<T>, x: array<T>, xl: Layout, tw: int -> int -> T, h: int,
                                 a: array<T>, n: int, m: pos, perm: seq<int>) returns (x0: T, sum: T)
    requires IsRing(u.ring) && ChirpFactors(u, true, tw) && n > 2 && PermInRange(n, perm)
    requires 0 <= h < m && HalfWithin(xl, m, n, x.Length) && x != a && a.Length >= (n - 1) * m
    modifies a
    ensures ColumnPacked(a[..], m, h, n - 1, perm, RealInputs(u, m, x[..], xl, tw)(h))
    ensures x0 == RealInputs(u, m, x[..], xl, tw)(h)(0)
    ensures sum == u.ring.add(x0, Sum(u.ring, n - 1, Packed(RealInputs(u, m, x[..], xl, tw)(h), perm)))
    ensures OnlyTouched(Layout(h, 0, m), 1, n - 1, old(a[..]), a[..])
  {
    hide Layout.At, RealInputs, ChirpFactors, Packed, Sum, IsRing, HalfWithin;
    var l := Interleaved(m);
    ghost var xs := x[..];
    ghost var col := RealInputs(u, m, xs, xl, tw)(h);
    var from := if 2 * h <= m then h else m - h;
    InterleavedRoom(m, n - 1, a.Length);
    ColumnAddresses(m, h);
    RealElementRead(u, m, xs, xl, tw, h, 0);
    ReadsWithin(xl, m, n, x.Length, from);
    x0 := x[xl.At(from, 0)];
    if 2 * h > m { x0 := u.conj(x0); }
    sum := x0;
    NothingPacked(u, col, perm, x0);
    for k := 0 to n - 1
      invariant sum == u.ring.add(x0, Sum(u.ring, k, Packed(col, perm)))
      invariant forall i {:trigger l.At(h, i)} :: 0 <= i < k ==> a[l.At(h, i)] == Packed(col, perm)(i)
      invariant forall i :: 0 <= i < a.Length && !Touches(Layout(h, 0, m), 1, n - 1, i) ==> a[i] == old(a[i])
    {
      var pk := perm[k];
      var xk := x[xl.At(from, pk)];
      if 2 * h > m { xk := u.conj(xk); }
      if h > 0 { xk := u.ring.mul(xk, tw(h)(pk)); }
      RealElementRead(u, m, xs, xl, tw, h, pk);
      OneMorePacked(u, col, perm, k, x0, xk);
      a[l.At(h, k)] := xk;
      sum := u.ring.add(sum, xk);
    }
  }

  lemma ColumnAddresses(m: int, h: int)
    ensures forall k :: Interleaved(m).At(h, k) == Layout(h, 0, m).At(0, k)
  {
  }

  lemma ReadsWithin(xl: Layout, m: int, n: int, len: int, from: int)
    requires HalfWithin(xl, m, n, len) && 0 <= from && 2 * from <= m
    ensures forall j {:trigger xl.At(from, j)} :: 0 <= j < n ==> 0 <= xl.At(from, j) < len
  {
  }

  lemma NothingPacked<T(!new)>(u: Roots<T>, col: int -> T, perm: seq<int>, x0: T)
    requires IsRing(u.ring)
    ensures x0 == u.ring.add(x0, Sum(u.ring, 0, Packed(col, perm)))
  {
    AddLaws(u.ring, x0, x0, x0);
  }

  lemma OneMorePacked<T(!new)>(u: Roots<T>, col: int -> T, perm: seq<int>, k: nat, x0: T, xk: T)
    requires IsRing(u.ring) && k < |perm| && xk == col(perm[k])
    ensures Packed(col, perm)(k) == xk
    ensures u.ring.add(u.ring.add(x0, Sum(u.ring, k, Packed(col, perm))), xk) == u.ring.add(x0, Sum(u.ring, k + 1, Packed(col, perm)))
  {
    AddLaws(u.ring, x0, Sum(u.ring, k, Packed(col, perm)), xk);
  }

  method PackReal<T(!new)>(u: Roots<T>, x: array<T>, xl: Layout, tw: int -> int -> T, a: array<T>, n: int, m: pos, perm: seq<int>)
    requires IsRing(u.ring) && ChirpFactors(u, true, tw) && n > 2 && PermInRange(n, perm)
    requires HalfWithin(xl, m, n, x.Length) && x != a && a.Length >= (n + 1) * m
    modifies a
    ensures RaderPacked(u, a[..], m, n - 1, perm, RealInputs(u, m, x[..], xl, tw))
  {
    hide RealInputs, ChirpFactors, RaderTables, HalfWithin, IsRing, Layout.At, MemberPacked, ColumnPacked;
    var l := Interleaved(m);
    ghost var inputs := RealInputs(u, m, x[..], xl, tw);
    InterleavedRoom(m, n + 1, a.Length);
    for h := 0 to m
      invariant forall h' {:trigger inputs(h')} :: 0 <= h' < h ==> MemberPacked(u, a[..], m, h', n - 1, perm, inputs(h'))
    {
      ghost var before := a[..];
      RowAddress(m, h, n - 1, a.Length);
      FewerRows(n - 1, n + 1, m);
      var x0, sum := PackRealMember(u, x, xl, tw, h, a, n, m, perm);
      ghost var packed := a[..];
      a[l.At(h, n - 1)] := x0;
      a[l.At(h, n)] := sum;
      MemberStored(u, m, h, n - 1, perm, inputs(h), before, packed, a[..]);
      forall h' {:trigger inputs(h')} | 0 <= h' < h ensures MemberPacked(u, a[..], m, h', n - 1, perm, inputs(h')) {
        OtherMember(u, m, h, h', n - 1, perm, inputs(h'), before, a[..]);
      }
    }
  }

  // ----- unpacking

  /** How many outputs of column h are unpacked. */
  function Limit(n: int, m: int, h: int): int { if h < m / 2 + 1 then n / 2 + 1 else n / 2 }

  /** Half spectrum elements of one copy: within the array, and apart. */
  ghost predicate HalfApart(yl: Layout, n: int, m: int, len: int) {
    && (forall h, k {:trigger yl.At(h, k)} :: (h, k) in Half(n, m) ==> 0 <= yl.At(h, k) < len)
    && forall h, k, h', k' {:trigger yl.At(h, k), yl.At(h', k')} ::
         (h, k) in Half(n, m) && (h', k') in Half(n, m) && yl.At(h, k) == yl.At(h', k') ==> h == h' && k == k'
  }

  lemma UnpackedHalf(n: pos, m: pos)
    requires n % 2 == 1
    ensures forall h, k :: (h, k) in Half(n, m) <==> 0 <= h < m && 0 <= k < Limit(n, m, h)
  {
    forall h, k ensures (h, k) in Half(n, m) <==> 0 <= h < m && 0 <= k < Limit(n, m, h) {
      if 0 <= h < m && 0 <= k < n { RaderTiling(n, m, h, k); }
    }
  }

  /** Every place of the half spectrum holds the element unpacked for it, and nothing else changed. */
  ghost predicate HalfUnpacked<T(!new)>(u: Roots<T>, a: seq<T>, n: int, m: pos, rev: seq<int>, yl: Layout, before: seq<T>, after: seq<T>)
  {
    && |after| == |before|
    && (forall h, k {:trigger yl.At(h, k)} :: (h, k) in Half(n, m) ==>
          0 <= yl.At(h, k) < |after| && after[yl.At(h, k)] == RealUnpacked(u, a, n, m, rev, h, k))
    && forall i :: 0 <= i < |before| && !TouchesHalf(yl, n, m, i) ==> after[i] == before[i]
  }

  /** The value of output (h, k), from the buffer. */
  function RealUnpacked<T>(u: Roots<T>, a: seq<T>, n: int, m: int, rev: seq<int>, h: int, k: int): T {
    Unpacked(u, a, m, h, Get(u.ring.zero, a, Interleaved(m).At(h, n - 1)), Get(u.ring.zero, a, Interleaved(m).At(h, n)), rev, k)
  }

  ghost predicate TouchesHalf(yl: Layout, n: int, m: int, i: int) { exists h, k {:trigger yl.At(h, k)} :: (h, k) in Half(n, m) && yl.At(h, k) == i }

  method UnpackReal<T(!new)>(u: Roots<T>, y: array<T>, yl: Layout, a: array<T>, n: int, m: pos, rev: seq<int>)
    requires n > 2 && n % 2 == 1 && RevInRange(n, rev) && a.Length >= (n + 1) * m && a != y && HalfApart(yl, n, m, y.Length)
    modifies y
    ensures HalfUnpacked(u, a[..], n, m, rev, yl, old(y[..]), y[..])
  {
    hide Layout.At, Half;
    var l := Interleaved(m);
    ghost var packed := a[..];
    UnpackedHalf(n, m);
    InterleavedRoom(m, n + 1, a.Length);
    for h := 0 to m
      invariant a[..] == packed
      invariant forall h', k {:trigger yl.At(h', k)} :: (h', k) in Half(n, m) && h' < h ==> y[yl.At(h', k)] == RealUnpacked(u, packed, n, m, rev, h', k)
      invariant forall i :: 0 <= i < y.Length && !TouchesHalf(yl, n, m, i) ==> y[i] == old(y[i])
    {
      RowAddress(m, h, n - 1, a.Length);
      y[yl.At(h, 0)] := a[l.At(h, n)];
      for k := 1 to Limit(n, m, h)
        invariant a[..] == packed
        invariant forall h', k' {:trigger yl.At(h', k')} :: (h', k') in Half(n, m) && (h' < h || (h' == h && k' < k)) ==>
          y[yl.At(h', k')] == RealUnpacked(u, packed, n, m, rev, h', k')
        invariant forall i :: 0 <= i < y.Length && !TouchesHalf(yl, n, m, i) ==> y[i] == old(y[i])
      {
        y[yl.At(h, k)] := u.ring.add(a[l.At(h, n - 1)], a[l.At(h, rev[k])]);
      }
    }
  }

  // ----- the stage

  /** A Rader stage of a real transform; its table has no row for column 0. */
  ghost predicate RealRaderSolves<T(!new)>(u: Roots<T>, t: Twid<T>) {
    && t.RaderTwid? && TwidSolvable(u, t.tp) && t.tp.n > 2 && t.tp.n % 2 == 1 && t.m == t.tp.n - 1
    && Divides(t.tp.n, u.order) && Divides(t.tp.n - 1, u.order) && ConvolutionPlans(u, t.tp.n - 1, t.tp.howmany0, t.fwd, t.bwd)
    && RaderTables(t.tp.n, t.perm, t.rev) && RaderSpectrum(u, t.tp.n, t.tp.dir, t.perm, t.bfft)
    && TableHolds(u, t.tp, TableLayout(1, 1, false), t.table)
  }

  /** The outputs of one copy are as wanted, and nothing else changed. */
  ghost predicate CopyDone<T(!new)>(u: Roots<T>, p: TwidProblem, xs: seq<T>, xo: int, before: seq<T>, after: seq<T>, yo: int, b: int)
    requires p.n >= 0
  {
    var yl := p.Out(yo, b);
    && |after| == |before|
    && (forall h, k {:trigger yl.At(h, k)} :: (h, k) in Half(p.n, p.howmany0) && 0 <= yl.At(h, k) < |after| ==>
          after[yl.At(h, k)] == Wanted(u, p, xs, xo, b, h, k))
    && forall i :: 0 <= i < |before| && !TouchesHalf(yl, p.n, p.howmany0, i) ==> after[i] == before[i]
  }

  /** The unpacked outputs are the transform of the packed inputs. */
  lemma UnpackedDft<T(!new)>(u: Roots<T>, t: Twid<T>, x: int -> int -> T, before: seq<T>, after: seq<T>, h: int, k: int)
    requires IsRoots(u) && RealRaderSolves(u, t)
    requires var p := t.tp;
      && |before| >= (p.n + 1) * p.howmany0 && 0 <= h < p.howmany0 && 0 <= k < p.n
      && RaderPacked(u, before, p.howmany0, p.n - 1, t.perm, x) && Convolved(u, p.n - 1, p.howmany0, t.bfft, before, after)
    ensures RealUnpacked(u, after, t.tp.n, t.tp.howmany0, t.rev, h, k) == Dft(u, t.tp.n, t.tp.dir, x(h), k)
  {
    var p := t.tp;
    hide RaderTables, RaderSpectrum, Divides, IsRoots, Dft, MemberPacked, TableHolds, ConvolutionPlans, Convolved, RealUnpacked, Layout.At;
    assert MemberPacked(u, before, p.howmany0, h, p.n - 1, t.perm, x(h));
    UnpackedMember(u, p.n, p.dir, t.perm, t.rev, t.bfft, p.howmany0, x(h), before, after, h, k);
  }

  lemma UnpackedMember<T(!new)>(u: Roots<T>, n: int, d: sign, perm: seq<int>, rev: seq<int>, bfft: seq<T>, m: pos, x: int -> T,
                                before: seq<T>, after: seq<T>, h: int, k: int)
    requires IsRoots(u) && n > 2 && Divides(n, u.order) && Divides(n - 1, u.order)
    requires RaderTables(n, perm, rev) && RaderSpectrum(u, n, d, perm, bfft)
    requires |before| >= (n + 1) * m && 0 <= h < m && 0 <= k < n
    requires MemberPacked(u, before, m, h, n - 1, perm, x) && Convolved(u, n - 1, m, bfft, before, after)
    ensures RealUnpacked(u, after, n, m, rev, h, k) == Dft(u, n, d, x, k)
  {
    hide RaderTables, RaderSpectrum, Divides, IsRoots, Dft, ColumnPacked, Convolved, Unpacked, Layout.At;
    FewerRows(n - 1, n + 1, m);
    SavedRow(u, n - 1, m, bfft, before, after, h, n - 1);
    SavedRow(u, n - 1, m, bfft, before, after, h, n);
    RaderMember(u, n, d, perm, rev, bfft, m, h, x, before, after, k);
  }

  lemma UnpackedWanted<T(!new)>(u: Roots<T>, t: Twid<T>, xs: seq<T>, xo: int, b: int, tw: int -> int -> T, before: seq<T>, after: seq<T>, h: int, k: int)
    requires IsRoots(u) && IsConjugation(u) && RealRaderSolves(u, t) && RowsHold(u, t.tp, tw)
    requires var p := t.tp;
      && |before| >= (p.n + 1) * p.howmany0 && 0 <= h < p.howmany0 && 0 <= k < p.n
      && RaderPacked(u, before, p.howmany0, p.n - 1, t.perm, RealInputs(u, p.howmany0, xs, p.In(xo, b), tw))
      && Convolved(u, p.n - 1, p.howmany0, t.bfft, before, after)
    ensures RealUnpacked(u, after, t.tp.n, t.tp.howmany0, t.rev, h, k) == Wanted(u, t.tp, xs, xo, b, h, k)
  {
    var p := t.tp;
    var m, xl := p.howmany0, p.In(xo, b);
    var cols, col := StageColumns(u, p, xs, xo, b), Rebuilt(u, m, Columns(u, xs, xl), h);
    forall j | 0 <= j < p.n ensures tw(h)(j) == Twiddles(u, p.n * p.howmany0, p.dir, h)(j) {}
    hide RaderPacked, Convolved, RealUnpacked, Twiddles, KernelValue, Dft, Divides, IsRoots, IsConjugation, RaderTables, RaderSpectrum, TableHolds,
         ConvolutionPlans, HalfOutput, RowsHold, Layout.At;
    UnpackedDft(u, t, RealInputs(u, m, xs, xl, tw), before, after, h, k);
    WeightedDft(u, p.n, p.dir, col, tw(h), k);
    SameKernel(u, p, col, Rebuilt(u, m, cols, h), tw(h), h, k);
    RebuiltOutput(u, p.n, m, p.dir, cols, h, k);
  }

  lemma SameKernel<T(!new)>(u: Roots<T>, p: TwidProblem, x: int -> T, y: int -> T, tw: int -> T, h: int, k: int)
    requires p.n > 0 && (forall j :: 0 <= j < p.n ==> x(j) == y(j))
    requires forall j :: 0 <= j < p.n ==> tw(j) == Twiddles(u, p.n * p.howmany0, p.dir, h)(j)
    ensures KernelValue(u, p.n, p.dir, x, tw, k) == KernelValue(u, p.n, p.dir, y, Twiddles(u, p.n * p.howmany0, p.dir, h), k)
  {
    SumExt(u.ring, p.n, KernelTerms(u, p.n, p.dir, x, tw, k), KernelTerms(u, p.n, p.dir, y, Twiddles(u, p.n * p.howmany0, p.dir, h), k));
  }

  lemma CopyIsDone<T(!new)>(u: Roots<T>, t: Twid<T>, xs: seq<T>, xo: int, b: int, tw: int -> int -> T, packed: seq<T>, convolved: seq<T>,
                            before: seq<T>, after: seq<T>, yo: int)
    requires IsRoots(u) && IsConjugation(u) && RealRaderSolves(u, t) && RowsHold(u, t.tp, tw)
    requires var p := t.tp;
      && |packed| >= (p.n + 1) * p.howmany0
      && RaderPacked(u, packed, p.howmany0, p.n - 1, t.perm, RealInputs(u, p.howmany0, xs, p.In(xo, b), tw))
      && Convolved(u, p.n - 1, p.howmany0, t.bfft, packed, convolved)
    requires HalfUnpacked(u, convolved, t.tp.n, t.tp.howmany0, t.rev, t.tp.Out(yo, b), before, after)
    ensures CopyDone(u, t.tp, xs, xo, before, after, yo, b)
  {
    var p, yl := t.tp, t.tp.Out(yo, b);
    UnpackedHalf(p.n, p.howmany0);
    hide Layout.At, RealUnpacked, Wanted, RaderPacked, Convolved, RealRaderSolves, RowsHold, IsRoots, IsConjugation, Half;
    forall h, k {:trigger yl.At(h, k)} | (h, k) in Half(p.n, p.howmany0)
      ensures after[yl.At(h, k)] == Wanted(u, p, xs, xo, b, h, k)
    {
      UnpackedWanted(u, t, xs, xo, b, tw, packed, convolved, h, k);
    }
  }

  lemma CopyHalf(p: TwidProblem, b: int, xo: int, xlen: int, yo: int, ylen: int)
    requires 0 <= b < p.howmany1 && HalfRoom(p, xo, xlen, yo, ylen)
    ensures HalfWithin(p.In(xo, b), p.howmany0, p.n, xlen) && HalfApart(p.Out(yo, b), p.n, p.howmany0, ylen)
  {
    hide Layout.At, Half;
    var xl, yl := p.In(xo, b), p.Out(yo, b);
    forall h, j {:trigger xl.At(h, j)} | 0 <= h && 2 * h <= p.howmany0 && 0 <= j < p.n ensures 0 <= xl.At(h, j) < xlen {
      assert 0 <= p.In(xo, b).At(h, j) < xlen;
    }
  }

  /** One more copy. */
  lemma AddRealCopy<T(!new)>(u: Roots<T>, p: TwidProblem, b: int, xs: seq<T>, xo: int, ys: seq<T>, before: seq<T>, after: seq<T>, yo: int)
    requires p.n >= 0 && 0 <= b < p.howmany1 && HalfSeparate(p, yo)
    requires HalfDone(u, p.(howmany1 := b), xs, xo, ys, before, yo) && CopyDone(u, p, xs, xo, before, after, yo, b)
    ensures HalfDone(u, p.(howmany1 := b + 1), xs, xo, ys, after, yo)
  {
    var q, q0, s := p.(howmany1 := b + 1), p.(howmany1 := b), Half(p.n, p.howmany0);
    assert forall c :: q.Out(yo, c) == p.Out(yo, c) == q0.Out(yo, c) && q.In(xo, c) == p.In(xo, c) == q0.In(xo, c);
    assert forall h, k :: (h, k) in s ==> 0 <= h < p.howmany0;
    hide Layout.At, Half, HalfOutput;
    forall c, h, k {:trigger q.Out(yo, c).At(h, k)} | 0 <= c < b + 1 && (h, k) in s && 0 <= q.Out(yo, c).At(h, k) < |after|
      ensures after[q.Out(yo, c).At(h, k)] == Wanted(u, q, xs, xo, c, h, k)
    {
      SameWanted(u, p, q, xs, xo, c, h, k);
      if c < b {
        var a := p.Out(yo, c).At(h, k);
        forall h', k' | (h', k') in s ensures p.Out(yo, b).At(h', k') != a {}
        assert !TouchesHalf(p.Out(yo, b), p.n, p.howmany0, a);
        assert before[q0.Out(yo, c).At(h, k)] == Wanted(u, q0, xs, xo, c, h, k);
        SameWanted(u, p, q0, xs, xo, c, h, k);
      }
    }
    forall a | 0 <= a < |ys| && !TouchesPlace(q, s, yo, a) ensures after[a] == ys[a] {
      TouchesMore(p, b, yo, a);
    }
  }

  lemma TouchesMore(p: TwidProblem, b: int, yo: int, a: int)
    requires 0 <= b
    ensures TouchesPlace(p.(howmany1 := b), Half(p.n, p.howmany0), yo, a) ==> TouchesPlace(p.(howmany1 := b + 1), Half(p.n, p.howmany0), yo, a)
    ensures TouchesHalf(p.Out(yo, b), p.n, p.howmany0, a) ==> TouchesPlace(p.(howmany1 := b + 1), Half(p.n, p.howmany0), yo, a)
  {
    var q, q0, s := p.(howmany1 := b + 1), p.(howmany1 := b), Half(p.n, p.howmany0);
    assert forall c :: q.Out(yo, c) == p.Out(yo, c) == q0.Out(yo, c);
    hide Layout.At, Half;
    if TouchesPlace(q0, s, yo, a) {
      var c, h, k :| 0 <= c < b && (h, k) in s && q0.Out(yo, c).At(h, k) == a;
      assert q.Out(yo, c).At(h, k) == a;
    }
    if TouchesHalf(p.Out(yo, b), p.n, p.howmany0, a) {
      var h, k :| (h, k) in s && p.Out(yo, b).At(h, k) == a;
      assert q.Out(yo, b).At(h, k) == a;
    }
  }

  lemma SameWanted<T(!new)>(u: Roots<T>, p: TwidProblem, q: TwidProblem, xs: seq<T>, xo: int, b: int, h: int, k: int)
    requires p.n >= 0 && q == p.(howmany1 := q.howmany1) && 0 <= h < p.howmany0
    ensures Wanted(u, q, xs, xo, b, h, k) == Wanted(u, p, xs, xo, b, h, k)
  {
    assert q.In(xo, b) == p.In(xo, b);
    forall i, j ensures StageColumns(u, q, xs, xo, b)(i)(j) == StageColumns(u, p, xs, xo, b)(i)(j) {}
    HalfOutputExt(u, p.n, p.howmany0, p.dir, StageColumns(u, q, xs, xo, b), StageColumns(u, p, xs, xo, b), h, k);
  }

  lemma NoCopies<T(!new)>(u: Roots<T>, p: TwidProblem, xs: seq<T>, xo: int, ys: seq<T>, yo: int)
    requires p.n >= 0
    ensures HalfDone(u, p.(howmany1 := 0), xs, xo, ys, ys, yo)
  {
  }

  /** One copy: pack, convolve, unpack. */
  method RaderRealCopy<T(!new)>(u: Roots<T>, s: Scratch<T>, t: Twid<T>, tw: int -> int -> T, x: array<T>, xo: int, a: array<T>, y: array<T>, yo: int, b: int)
    requires IsRoots(u) && IsConjugation(u) && RealRaderSolves(u, t) && s.Valid() && RowsHold(u, t.tp, tw) && ChirpFactors(u, true, tw)
    requires x != y && HalfRoom(t.tp, xo, x.Length, yo, y.Length) && {x, y, a} !! s.Free() && a !in {x, y} && a.Length >= (t.tp.n + 1) * t.tp.howmany0
    requires 0 <= b < t.tp.howmany1
    modifies s, s.Free(), y, a
    ensures CopyDone(u, t.tp, old(x[..]), xo, old(y[..]), y[..], yo, b)
    ensures s.Kept() && s.rader == old(s.rader) && s.bluestein == old(s.bluestein)
  {
    hide Layout.At, Half, HalfUnpacked, CopyDone, RaderPacked, Convolved, RealRaderSolves, RowsHold, IsRoots, IsRing, IsConjugation,
         ConvolutionPlans, PermInRange, RevInRange, ChirpFactors, HalfRoom, HalfApart, HalfWithin, RealInputs, Scratch.Valid;
    var p := t.tp;
    RealRaderFacts(u, t);
    CopyHalf(p, b, xo, x.Length, yo, y.Length);
    FewerRows(p.n - 1, p.n + 1, p.howmany0);
    ghost var xs, before := x[..], y[..];
    PackReal(u, x, p.In(xo, b), tw, a, p.n, p.howmany0, t.perm);
    ghost var packed := a[..];
    ConvolveInPlace(u, s, p.n - 1, p.howmany0, t.fwd, t.bwd, t.bfft, a);
    ghost var convolved := a[..];
    UnpackReal(u, y, p.Out(yo, b), a, p.n, p.howmany0, t.rev);
    CopyIsDone(u, t, xs, xo, b, tw, packed, convolved, before, y[..], yo);
  }

  lemma RealRaderFacts<T(!new)>(u: Roots<T>, t: Twid<T>)
    requires IsRoots(u) && RealRaderSolves(u, t)
    ensures IsRing(u.ring) && PermInRange(t.tp.n, t.perm) && RevInRange(t.tp.n, t.rev) && |t.bfft| == t.tp.n - 1
    ensures ConvolutionPlans(u, t.tp.n - 1, t.tp.howmany0, t.fwd, t.bwd) && t.tp.n > 2 && t.tp.n % 2 == 1 && t.tp.howmany0 > 0 && t.tp.howmany1 > 0
    ensures t.RaderTwid? && t.m == t.tp.n - 1
    ensures RowsHold(u, t.tp, ChirpRows(u, t.table, t.tp.n)) && ChirpFactors(u, true, ChirpRows(u, t.table, t.tp.n))
  {
    RootsRing(u);
    TablesInRange(t.tp.n, t.perm, t.rev);
    ChirpRowFactors(u, t.table, t.tp.n);
    ChirpRowsHold(u, t.tp, t.table);
  }

  /** The stage turns half spectra of the interleaved subsequences into the half spectrum, copy by copy. */
  method ExecuteRaderReal<T(!new)>(u: Roots<T>, s: Scratch<T>, t: Twid<T>, x: array<T>, xo: int, y: array<T>, yo: int)
    requires IsRoots(u) && IsConjugation(u) && t.RaderTwid? && RealRaderSolves(u, t) && s.Valid()
    requires x != y && HalfRoom(t.tp, xo, x.Length, yo, y.Length) && {x, y} !! s.Free() + {s.rader, s.bluestein}
    modifies s, s.Free(), y, s.rader
    ensures HalfDone(u, t.tp, old(x[..]), xo, old(y[..]), y[..], yo)
    ensures s.Kept() && (s.rader == old(s.rader) || fresh(s.rader)) && s.bluestein == old(s.bluestein)
  {
    hide IsRoots, RealRaderSolves, HalfRoom, HalfDone, CopyDone, ChirpFactors, RowsHold, IsConjugation, HalfSeparate, IsRing, ConvolutionPlans,
         PermInRange, RevInRange, ChirpRows;
    var p := t.tp;
    RealRaderFacts(u, t);
    SeparateRoom(p, xo, x.Length, yo, y.Length);
    ghost var xs, ys := x[..], y[..];
    var a := s.GetRader(u.ring.zero, (t.m + 2) * p.howmany0);
    NoCopies(u, p, xs, xo, ys, yo);
    for b := 0 to p.howmany1
      invariant s.Kept() && s.rader == a && s.bluestein == old(s.bluestein) && x[..] == xs
      invariant HalfDone(u, p.(howmany1 := b), xs, xo, ys, y[..], yo)
    {
      ghost var before := y[..];
      RaderRealCopy(u, s, t, ChirpRows(u, t.table, p.n), x, xo, a, y, yo, b);
      AddRealCopy(u, p, b, xs, xo, ys, before, y[..], yo);
    }
    assert p.(howmany1 := p.howmany1) == p;
  }

  lemma SeparateRoom(p: TwidProblem, xo: int, xlen: int, yo: int, ylen: int)
    requires HalfRoom(p, xo, xlen, yo, ylen)
    ensures HalfSeparate(p, yo)
  {
  }
}
