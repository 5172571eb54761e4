/** Plan trees for complex transforms, what it means for a plan to solve a problem, and what
    its execution owes the caller.
 */
module Plans {
  import opened Integers
  import opened Algebra
  import opened Roots
  import opened Transform
  import opened Memory
  import opened Twiddle
  import opened Generator
  import opened Rader
  import opened Bluestein

  datatype Problem = Problem(n: int, istride: int, ostride: int, howmany: int, idist: int, odist: int, dir: int) {
    function In(xo: int): Layout { Layout(xo, idist, istride) }

    function Out(yo: int): Layout { Layout(yo, odist, ostride) }
  }

  /** A batch of twiddled length-n transforms: howmany0 columns, each repeated howmany1 times
      at consecutive addresses.
   */
  datatype TwidProblem = TwidProblem(n: int, istride: int, ostride: int, howmany0: int, idist0: int, odist0: int,
                                     howmany1: int, dir: int)
  {
    function In(xo: int, b: int): Layout { Layout(xo + b, idist0, istride) }

    function Out(yo: int, b: int): Layout { Layout(yo + b, odist0, ostride) }

    predicate Has(b: int, h: int, k: int) { 0 <= b < howmany1 && 0 <= h < howmany0 && 0 <= k < n }
  }

  // ----- what a plan must do

  ghost predicate Solved<T(!new)>(u: Roots<T>, p: Problem, xs: seq<T>, xl: Layout, after: seq<T>, yl: Layout) {
    forall h, k {:trigger yl.At(h, k)} :: 0 <= h < p.howmany && 0 <= k < p.n && 0 <= yl.At(h, k) < |after| ==>
      after[yl.At(h, k)] == Dft(u, p.n, p.dir, Column(u, xs, xl, h), k)
  }

  /** Column h of inner copy b is transformed after multiplication by its twiddle factors. */
  ghost predicate TwidSolvedAt<T(!new)>(u: Roots<T>, p: TwidProblem, xs: seq<T>, xo: int, after: seq<T>, yo: int, b: int)
    requires p.n >= 0
  {
    var xl, yl := p.In(xo, b), p.Out(yo, b);
    forall h, k {:trigger yl.At(h, k)} :: 0 <= h < p.howmany0 && 0 <= k < p.n && 0 <= yl.At(h, k) < |after| ==>
      after[yl.At(h, k)] == KernelValue(u, p.n, p.dir, Column(u, xs, xl, h), Twiddles(u, p.n * p.howmany0, p.dir, h), k)
  }

  ghost predicate TwidSolved<T(!new)>(u: Roots<T>, p: TwidProblem, xs: seq<T>, xo: int, after: seq<T>, yo: int)
    requires p.n >= 0
  {
    forall b :: 0 <= b < p.howmany1 ==> TwidSolvedAt(u, p, xs, xo, after, yo, b)
  }

  // ----- one Cooley-Tukey step on memory

  /** The sub-batch that the first stage solves. */
  function Stage1(p: Problem, r: pos): Problem {
    Problem(p.n / r, p.istride * r, p.howmany * r, p.howmany * r, if p.howmany == 1 then p.istride else p.idist, 1, p.dir)
  }

  /** The twiddled batch that the second stage solves. */
  function Stage2(p: Problem, r: pos): TwidProblem {
    TwidProblem(r, p.howmany, p.ostride * (p.n / r), p.n / r, p.howmany * r, p.ostride, p.howmany, p.dir)
  }

  /** The two-stage strategies apply: one batch member, or packed input and interleaved output. */
  predicate Splits(p: Problem, r: pos) {
    && p.n > 0 && p.howmany > 0 && p.n % r == 0 && r < p.n
    && (p.howmany == 1 || (p.istride == p.howmany * p.idist && p.odist == 1))
  }

  lemma StageAddresses(p: Problem, r: pos, xo: int, yo: int, b: int, i: int, j: int, t: int, k: int)
    requires Splits(p, r) && 0 <= b < p.howmany
    ensures var q := Ix(p.howmany, b, j); var m := p.n / r;
      && Stage1(p, r).In(xo).At(q, t) == p.In(xo).At(b, Ix(r, j, t))
      && Stage2(p, r).In(0, b).At(i, j) == Stage1(p, r).Out(0).At(q, i)
      && Stage2(p, r).Out(yo, b).At(i, k) == p.Out(yo).At(b, Ix(m, i, k))
  {
    var m := p.n / r;
    var q := b + p.howmany * j;
    assert t * (p.istride * r) == (r * t) * p.istride;
    assert (j + r * t) * p.istride == j * p.istride + (r * t) * p.istride;
    if p.howmany > 1 {
      assert q * p.idist == b * p.idist + j * (p.howmany * p.idist);
    }
    assert i * (p.howmany * r) + j * p.howmany == p.howmany * j + i * (p.howmany * r);
    assert k * (p.ostride * m) == (m * k) * p.ostride;
    assert (i + m * k) * p.ostride == i * p.ostride + (m * k) * p.ostride;
  }

  /** Every address of the packed interleaved intermediate batch lies in the first n howmany slots. */
  lemma MiddleAddress(p: Problem, r: pos, q: int, i: int)
    requires Splits(p, r) && 0 <= q < p.howmany * r && 0 <= i < p.n / r
    ensures 0 <= Stage1(p, r).Out(0).At(q, i) < p.n * p.howmany
  {
    var m, w := p.n / r, p.howmany * r;
    assert p.n == r * m;
    MiddleBound(w, m, q, i);
    assert w * m == p.n * p.howmany by { Exchange(p.howmany, r, m, 1); }
  }

  lemma MiddleBound(w: pos, m: int, q: int, i: int)
    requires 0 <= q < w && 0 <= i < m
    ensures 0 <= q + i * w < w * m
  {
    MulGrows(w, m - i);
    assert w * (m - i) == w * m - w * i;
    assert i * w >= 0;
  }

  /** The columns the second stage reads are the outputs of the interleaved subsequences. */
  lemma MiddleColumn<T(!new)>(u: Roots<T>, p: Problem, r: pos, xs: seq<T>, xo: int, mid: seq<T>, b: int, i: int, j: int)
    requires Splits(p, r) && |mid| >= p.n * p.howmany
    requires Solved(u, Stage1(p, r), xs, Stage1(p, r).In(xo), mid, Stage1(p, r).Out(0))
    requires 0 <= b < p.howmany && 0 <= i < p.n / r && 0 <= j < r
    ensures Column(u, mid, Stage2(p, r).In(0, b), i)(j)
         == SubOutputs(u, r, p.n / r, p.dir, Column(u, xs, p.In(xo), b), i)(j)
  {
    var m, q, s1 := p.n / r, Ix(p.howmany, b, j), Stage1(p, r);
    MulGrows(p.howmany, r - j);
    assert p.howmany * (r - j) == p.howmany * r - p.howmany * j;
    assert 0 <= q < p.howmany * r;
    StageAddresses(p, r, xo, 0, b, i, j, 0, 0);
    MiddleAddress(p, r, q, i);
    var x, y := Column(u, xs, s1.In(xo), q), Every(Column(u, xs, p.In(xo), b), r, j);
    forall t | 0 <= t < m ensures x(t) == y(t) {
      StageAddresses(p, r, xo, 0, b, i, j, t, 0);
    }
    DftExt(u, m, p.dir, x, y, i);
  }

  lemma KernelExt<T(!new)>(u: Roots<T>, n: nat, d: int, x: int -> T, y: int -> T, tw: int -> T, tv: int -> T, k: int)
    requires forall j :: 0 <= j < n ==> x(j) == y(j) && tw(j) == tv(j)
    ensures KernelValue(u, n, d, x, tw, k) == KernelValue(u, n, d, y, tv, k)
  {
    SumExt(u.ring, n, KernelTerms(u, n, d, x, tw, k), KernelTerms(u, n, d, y, tv, k));
  }

  lemma SolvedIntro<T(!new)>(u: Roots<T>, p: Problem, xs: seq<T>, xl: Layout, after: seq<T>, yl: Layout)
    requires p.n >= 0 && Within(yl, p.howmany, p.n, |after|)
    requires forall h, k {:trigger yl.At(h, k)} :: 0 <= h < p.howmany && 0 <= k < p.n ==>
      after[yl.At(h, k)] == Dft(u, p.n, p.dir, Column(u, xs, xl, h), k)
    ensures Solved(u, p, xs, xl, after, yl)
  {
  }

  /** Every output index is i + m k for one column i and one kernel output k. */
  lemma OutputIndex(n: pos, r: pos, K: int)
    requires n % r == 0 && 0 <= K < n
    ensures n / r > 0 && 0 <= K % (n / r) < n / r && 0 <= K / (n / r) < r
    ensures K == Ix(n / r, K % (n / r), K / (n / r))
  {
    var m := n / r;
    assert n == m * r;
    DivBound(K, m, r);
  }

  /** Two stages through a packed buffer solve the problem. */
  lemma CooleyTukeySolves<T(!new)>(u: Roots<T>, p: Problem, r: pos, xs: seq<T>, xo: int, mid: seq<T>, after: seq<T>, yo: int)
    requires IsRoots(u) && Splits(p, r) && Divides(p.n, u.order) && (p.dir == 1 || p.dir == -1)
    requires |mid| >= p.n * p.howmany && Within(p.Out(yo), p.howmany, p.n, |after|)
    requires Solved(u, Stage1(p, r), xs, Stage1(p, r).In(xo), mid, Stage1(p, r).Out(0))
    requires TwidSolved(u, Stage2(p, r), mid, 0, after, yo)
    ensures Solved(u, p, xs, p.In(xo), after, p.Out(yo))
  {
    hide Layout.At, Ix, Solved, TwidSolved, Divides;
    forall b, K {:trigger p.Out(yo).At(b, K)} | 0 <= b < p.howmany && 0 <= K < p.n
      ensures after[p.Out(yo).At(b, K)] == Dft(u, p.n, p.dir, Column(u, xs, p.In(xo), b), K)
    {
      OutputIndex(p.n, r, K);
      CooleyTukeyElement(u, p, r, xs, xo, mid, after, yo, b, K % (p.n / r), K / (p.n / r));
    }
    SolvedIntro(u, p, xs, p.In(xo), after, p.Out(yo));
  }

  lemma CooleyTukeyElement<T(!new)>(u: Roots<T>, p: Problem, r: pos, xs: seq<T>, xo: int, mid: seq<T>, after: seq<T>, yo: int,
                                    b: int, i: int, k: int)
    requires IsRoots(u) && Splits(p, r) && Divides(p.n, u.order) && (p.dir == 1 || p.dir == -1)
    requires |mid| >= p.n * p.howmany && Within(p.Out(yo), p.howmany, p.n, |after|)
    requires Solved(u, Stage1(p, r), xs, Stage1(p, r).In(xo), mid, Stage1(p, r).Out(0))
    requires TwidSolved(u, Stage2(p, r), mid, 0, after, yo)
    requires 0 <= b < p.howmany && 0 <= i < p.n / r && 0 <= k < r
    requires 0 <= Ix(p.n / r, i, k) < p.n
    ensures after[p.Out(yo).At(b, Ix(p.n / r, i, k))]
         == Dft(u, p.n, p.dir, Column(u, xs, p.In(xo), b), Ix(p.n / r, i, k))
  {
    var m: pos, s2 := p.n / r, Stage2(p, r);
    assert p.n == r * m;
    StageAddresses(p, r, xo, yo, b, i, 0, 0, k);
    var yl, a := s2.Out(yo, b), p.Out(yo).At(b, Ix(m, i, k));
    assert yl.At(i, k) == a;
    hide Layout.At, Ix, KernelValue, Twiddles, Dft, IsRoots, Divides, SubOutputs, Separate;
    var x := SubOutputs(u, r, m, p.dir, Column(u, xs, p.In(xo), b), i);
    var tw := Twiddles(u, r * m, p.dir, i);
    assert after[a] == KernelValue(u, r, p.dir, Column(u, mid, s2.In(0, b), i), tw, k) by {
      assert TwidSolvedAt(u, s2, mid, 0, after, yo, b);
      assert 0 <= yl.At(i, k) < |after|;
    }
    hide TwidSolved, Within;
    forall j | 0 <= j < r ensures Column(u, mid, s2.In(0, b), i)(j) == x(j) {
      MiddleColumn(u, p, r, xs, xo, mid, b, i, j);
    }
    hide Solved;
    KernelExt(u, r, p.dir, Column(u, mid, s2.In(0, b), i), x, tw, tw, k);
    CooleyTukey(u, r, m, p.dir, Column(u, xs, p.In(xo), b), i, k);
  }

  // ----- room in memory

  ghost predicate Room(p: Problem, xl: Layout, xlen: int, yl: Layout, ylen: int) {
    && Within(xl, p.howmany, p.n, xlen)
    && Within(yl, p.howmany, p.n, ylen)
    && Separate(yl, p.howmany, p.n)
  }

  ghost predicate TwidTouches(p: TwidProblem, yo: int, a: int) {
    exists b :: 0 <= b < p.howmany1 && Touches(p.Out(yo, b), p.howmany0, p.n, a)
  }

  ghost predicate TwidOnlyTouched<T(!new)>(p: TwidProblem, yo: int, before: seq<T>, after: seq<T>) {
    && |after| == |before|
    && forall a :: 0 <= a < |before| && !TwidTouches(p, yo, a) ==> after[a] == before[a]
  }

  ghost predicate TwidSeparate(p: TwidProblem, yo: int) {
    forall b, h, k, b', h', k' {:trigger p.Out(yo, b).At(h, k), p.Out(yo, b').At(h', k')} ::
      p.Has(b, h, k) && p.Has(b', h', k') && p.Out(yo, b).At(h, k) == p.Out(yo, b').At(h', k')
      ==> b == b' && h == h' && k == k'
  }

  ghost predicate TwidRoom(p: TwidProblem, xo: int, xlen: int, yo: int, ylen: int) {
    && (forall b {:trigger p.In(xo, b)} :: 0 <= b < p.howmany1 ==> Within(p.In(xo, b), p.howmany0, p.n, xlen))
    && (forall b {:trigger p.Out(yo, b)} :: 0 <= b < p.howmany1 ==> Within(p.Out(yo, b), p.howmany0, p.n, ylen))
    && TwidSeparate(p, yo)
  }

  lemma PackedSeparate(w: pos, q: int, i: int, q': int, i': int)
    requires 0 <= q < w && 0 <= q' < w && q + i * w == q' + i' * w
    ensures q == q' && i == i'
  {
    MulGrows(w, i - i');
    assert w * (i - i') == i * w - i' * w;
  }

  /** Batch member q = b + howmany j of the first stage. */
  lemma MemberIndex(p: Problem, r: pos, q: int)
    requires Splits(p, r) && 0 <= q < p.howmany * r
    ensures 0 <= q % p.howmany < p.howmany && 0 <= q / p.howmany < r
    ensures q == Ix(p.howmany, q % p.howmany, q / p.howmany)
  {
    DivBound(q, p.howmany, r);
  }

  lemma InnerIndex(r: pos, m: pos, j: int, t: int)
    requires 0 <= j < r && 0 <= t < m
    ensures 0 <= Ix(r, j, t) < r * m
  {
    MulGrows(r, m - t);
    assert r * (m - t) == r * m - r * t;
    assert r * t >= 0;
  }

  lemma Stage1Room(p: Problem, r: pos, xo: int, xlen: int, mid: int)
    requires Splits(p, r) && Within(p.In(xo), p.howmany, p.n, xlen) && mid >= p.n * p.howmany
    ensures Room(Stage1(p, r), Stage1(p, r).In(xo), xlen, Stage1(p, r).Out(0), mid)
  {
    var s1, m := Stage1(p, r), p.n / r;
    assert p.n == r * m;
    forall q, t {:trigger s1.In(xo).At(q, t)} | 0 <= q < s1.howmany && 0 <= t < m ensures 0 <= s1.In(xo).At(q, t) < xlen {
      MemberIndex(p, r, q);
      InnerIndex(r, m, q / p.howmany, t);
      StageAddresses(p, r, xo, 0, q % p.howmany, 0, q / p.howmany, t, 0);
    }
    forall q, i {:trigger s1.Out(0).At(q, i)} | 0 <= q < s1.howmany && 0 <= i < m ensures 0 <= s1.Out(0).At(q, i) < mid {
      MiddleAddress(p, r, q, i);
    }
    forall q, i, q', i' {:trigger s1.Out(0).At(q, i), s1.Out(0).At(q', i')}
      | 0 <= q < s1.howmany && 0 <= i < m && 0 <= q' < s1.howmany && 0 <= i' < m && s1.Out(0).At(q, i) == s1.Out(0).At(q', i')
      ensures q == q' && i == i'
    {
      PackedSeparate(s1.howmany, q, i, q', i');
    }
  }

  lemma Stage2Room(p: Problem, r: pos, mid: int, yo: int, ylen: int)
    requires Splits(p, r) && Within(p.Out(yo), p.howmany, p.n, ylen) && Separate(p.Out(yo), p.howmany, p.n)
    requires mid >= p.n * p.howmany
    ensures TwidRoom(Stage2(p, r), 0, mid, yo, ylen)
  {
    var s2, m := Stage2(p, r), p.n / r;
    assert p.n == r * m;
    forall b, i, j | 0 <= b < p.howmany && 0 <= i < m && 0 <= j < r ensures 0 <= s2.In(0, b).At(i, j) < mid {
      StageAddresses(p, r, 0, yo, b, i, j, 0, 0);
      InnerIndex(p.howmany, r, b, j);
      MiddleAddress(p, r, Ix(p.howmany, b, j), i);
    }
    forall b, i, k | 0 <= b < p.howmany && 0 <= i < m && 0 <= k < r ensures 0 <= s2.Out(yo, b).At(i, k) < ylen {
      StageAddresses(p, r, 0, yo, b, i, 0, 0, k);
      InnerIndex(m, r, i, k);
    }
    forall b, i, k, b', i', k' {:trigger s2.Out(yo, b).At(i, k), s2.Out(yo, b').At(i', k')}
      | s2.Has(b, i, k) && s2.Has(b', i', k') && s2.Out(yo, b).At(i, k) == s2.Out(yo, b').At(i', k')
      ensures b == b' && i == i' && k == k'
    {
      StageAddresses(p, r, 0, yo, b, i, 0, 0, k);
      StageAddresses(p, r, 0, yo, b', i', 0, 0, k');
      InnerIndex(m, r, i, k);
      InnerIndex(m, r, i', k');
      assert p.Out(yo).At(b, Ix(m, i, k)) == p.Out(yo).At(b', Ix(m, i', k'));
      PackedSeparate(m, i, k, i', k');
    }
  }

  /** What the second stage leaves alone, the whole step leaves alone. */
  lemma Stage2Touches<T(!new)>(p: Problem, r: pos, yo: int, before: seq<T>, after: seq<T>)
    requires Splits(p, r) && TwidOnlyTouched(Stage2(p, r), yo, before, after)
    ensures OnlyTouched(p.Out(yo), p.howmany, p.n, before, after)
  {
    var s2, m := Stage2(p, r), p.n / r;
    assert p.n == r * m;
    forall a | 0 <= a < |before| && !Touches(p.Out(yo), p.howmany, p.n, a) ensures after[a] == before[a] {
      if TwidTouches(s2, yo, a) {
        var b :| 0 <= b < p.howmany && Touches(s2.Out(yo, b), m, r, a);
        var i, k :| 0 <= i < m && 0 <= k < r && s2.Out(yo, b).At(i, k) == a;
        StageAddresses(p, r, 0, yo, b, i, 0, 0, k);
        InnerIndex(m, r, i, k);
      }
    }
  }

  // ----- plan trees

  /** Plans the planner returns for complex problems. Tables are computed at construction. */
  datatype Plan<T> =
    | Direct(p: Problem)
    | Fft1(howmany: int, idist: int, odist: int)
    | Loop(howmany: int, idist: int, odist: int, inner: Plan<T>)
    | CooleyTukeyPlan(n: int, howmany: int, stage1: Plan<T>, stage2: Twid<T>)
    | RaderSingle(n: int, istride: int, ostride: int, m: int, fwd: Plan<T>, bwd: Plan<T>,
                  perm: seq<int>, rev: seq<int>, bfft: seq<T>)
    | RaderBatch(p: Problem, m: int, astride: int, fwd: Plan<T>, bwd: Plan<T>,
                 perm: seq<int>, rev: seq<int>, bfft: seq<T>)
    | BluesteinSingle(n: int, istride: int, ostride: int, pad: int, fwd: Plan<T>, bwd: Plan<T>,
                      w: seq<T>, bfft: seq<T>)
    | BluesteinBatch(p: Problem, pad: int, fwd: Plan<T>, bwd: Plan<T>, w: seq<T>, bfft: seq<T>)

  /** Second stages. */
  datatype Twid<T> =
    | AbTwid(tp: TwidProblem, layout: TableLayout, table: seq<T>)
    | AcTwid(tp: TwidProblem, layout: TableLayout, table: seq<T>)
    | RaderTwid(tp: TwidProblem, m: int, table: seq<T>, fwd: Plan<T>, bwd: Plan<T>,
                perm: seq<int>, rev: seq<int>, bfft: seq<T>)
    | BluesteinTwid(tp: TwidProblem, pad: int, table: seq<T>, fwd: Plan<T>, bwd: Plan<T>, w: seq<T>, bfft: seq<T>)

  /** The plan uses the Rader or Bluestein scratch buffers. */
  predicate Convolves<T>(plan: Plan<T>) {
    match plan
    case Direct(_) => false
    case Fft1(_, _, _) => false
    case Loop(_, _, _, inner) => Convolves(inner)
    case CooleyTukeyPlan(_, _, stage1, stage2) => Convolves(stage1) || TwidConvolves(stage2)
    case _ => true
  }

  predicate TwidConvolves<T>(t: Twid<T>) { t.RaderTwid? || t.BluesteinTwid? }

  ghost function Size<T>(plan: Plan<T>): nat
    decreases plan
  {
    match plan
    case Direct(_) => 1
    case Fft1(_, _, _) => 1
    case Loop(_, _, _, inner) => 1 + Size(inner)
    case CooleyTukeyPlan(_, _, stage1, stage2) => 1 + Size(stage1) + TwidSize(stage2)
    case RaderSingle(_, _, _, _, fwd, bwd, _, _, _) => 2 + Size(fwd) + Size(bwd)
    case RaderBatch(_, _, _, fwd, bwd, _, _, _) => 2 + Size(fwd) + Size(bwd)
    case BluesteinSingle(_, _, _, _, fwd, bwd, _, _) => 2 + Size(fwd) + Size(bwd)
    case BluesteinBatch(_, _, fwd, bwd, _, _) => 2 + Size(fwd) + Size(bwd)
  }

  ghost function TwidSize<T>(t: Twid<T>): nat
    decreases t
  {
    match t
    case AbTwid(_, _, _) => 1
    case AcTwid(_, _, _) => 1
    case RaderTwid(_, _, _, fwd, bwd, _, _, _) => 2 + Size(fwd) + Size(bwd)
    case BluesteinTwid(_, _, _, fwd, bwd, _, _) => 2 + Size(fwd) + Size(bwd)
  }

  /** The transform of Rader's kernel, as the table stores it. */
  ghost predicate RaderSpectrum<T(!new)>(u: Roots<T>, n: int, d: int, perm: seq<int>, bfft: seq<T>) {
    n > 2 && |bfft| == n - 1 &&
    exists b: int -> T :: IsKernel(u, n, d, perm, b) && forall k :: 0 <= k < n - 1 ==> bfft[k] == Dft(u, n - 1, -1, b, k)
  }

  ghost predicate ChirpSpectrum<T(!new)>(u: Roots<T>, n: pos, d: int, pad: int, w: seq<T>, bfft: seq<T>) {
    && |w| == n && |bfft| == pad && pad >= 2 * n - 1
    && (forall k :: 0 <= k < n ==> w[k] == Chirp(u, n, d, k))
    && exists b: int -> T :: IsChirpKernel(u, n, d, pad, b) && forall k :: 0 <= k < pad ==> bfft[k] == Dft(u, pad, -1, b, k)
  }

  /** The in-place sub-plans of a convolution work on interleaved batches. */
  function BatchProblem(m: int, howmany: int, dir: int): Problem {
    Problem(m, howmany, howmany, howmany, 1, 1, dir)
  }

  /** The table holds the twiddle factors of the batch at the slots of its layout, and in a layout
      of pairs each factor times the imaginary unit after it.
   */
  ghost predicate TableHolds<T(!new)>(u: Roots<T>, p: TwidProblem, l: TableLayout, table: seq<T>) {
    forall row, i {:trigger l.Slot(p.n, row, i)} :: 0 <= row && l.FirstRow() + row < p.howmany0 && 1 <= i < p.n ==>
      && 0 <= l.Slot(p.n, row, i) < |table|
      && table[l.Slot(p.n, row, i)] == u.w(p.n * p.howmany0, Phase(p.dir, l.FirstRow() + row, i))
      && (l.slots == 2 ==>
            && l.Slot(p.n, row, i) + 1 < |table|
            && table[l.Slot(p.n, row, i) + 1] == u.ring.mul(u.im, u.w(p.n * p.howmany0, Phase(p.dir, l.FirstRow() + row, i))))
  }

  /** The problem of one batch member. */
  function Member(p: Problem): Problem { Problem(p.n, p.istride, p.ostride, 1, 0, 0, p.dir) }

  function Radix<T>(t: Twid<T>): int { t.tp.n }

  /** A problem that a caller may ask to solve. */
  ghost predicate Solvable<T>(u: Roots<T>, p: Problem) {
    p.n > 0 && p.howmany > 0 && (p.dir == 1 || p.dir == -1) && Divides(p.n, u.order)
  }

  ghost predicate TwidSolvable<T>(u: Roots<T>, p: TwidProblem) {
    p.n > 1 && p.howmany0 > 0 && p.howmany1 > 0 && (p.dir == 1 || p.dir == -1) && Divides(p.n * p.howmany0, u.order)
  }

  /** The plan has the shape and the tables that some strategy gives a plan for p. */
  ghost predicate Solves<T(!new)>(u: Roots<T>, plan: Plan<T>, p: Problem)
    decreases plan, 1
  {
    Solvable(u, p) && Shape(u, plan, p)
  }

  ghost predicate Shape<T(!new)>(u: Roots<T>, plan: Plan<T>, p: Problem)
    requires Solvable(u, p)
    decreases plan, 0
  {
    match plan {
      case Direct(q) => q == p
      case Fft1(howmany, idist, odist) => p.n == 1 && howmany == p.howmany && idist == p.idist && odist == p.odist
      case Loop(howmany, idist, odist, inner) =>
        && howmany == p.howmany && idist == p.idist && odist == p.odist
        && Solves(u, inner, Member(p))
      case CooleyTukeyPlan(n, howmany, stage1, stage2) =>
        && n == p.n && howmany == p.howmany && Radix(stage2) > 0 && Splits(p, Radix(stage2))
        && Solves(u, stage1, Stage1(p, Radix(stage2)))
        && stage2.tp == Stage2(p, Radix(stage2)) && TwidSolves(u, stage2)
      case RaderSingle(n, istride, ostride, m, fwd, bwd, perm, rev, bfft) =>
        && n == p.n && istride == p.istride && ostride == p.ostride && p.howmany == 1 && m == n - 1
        && Solves(u, fwd, BatchProblem(m, 1, -1)) && !Convolves(fwd)
        && Solves(u, bwd, BatchProblem(m, 1, 1)) && !Convolves(bwd)
        && RaderTables(n, perm, rev) && RaderSpectrum(u, n, p.dir, perm, bfft)
      case RaderBatch(q, m, astride, fwd, bwd, perm, rev, bfft) =>
        && q == p && m == p.n - 1 && astride == p.howmany
        && Solves(u, fwd, BatchProblem(m, p.howmany, -1)) && !Convolves(fwd)
        && Solves(u, bwd, BatchProblem(m, p.howmany, 1)) && !Convolves(bwd)
        && RaderTables(p.n, perm, rev) && RaderSpectrum(u, p.n, p.dir, perm, bfft)
      case BluesteinSingle(n, istride, ostride, pad, fwd, bwd, w, bfft) =>
        && n == p.n && istride == p.istride && ostride == p.ostride && p.howmany == 1 && Divides(2 * n, u.order)
        && Solves(u, fwd, BatchProblem(pad, 1, -1)) && !Convolves(fwd)
        && Solves(u, bwd, BatchProblem(pad, 1, 1)) && !Convolves(bwd)
        && ChirpSpectrum(u, n, p.dir, pad, w, bfft)
      case BluesteinBatch(q, pad, fwd, bwd, w, bfft) =>
        && q == p && Divides(2 * p.n, u.order)
        && Solves(u, fwd, BatchProblem(pad, p.howmany, -1)) && !Convolves(fwd)
        && Solves(u, bwd, BatchProblem(pad, p.howmany, 1)) && !Convolves(bwd)
        && ChirpSpectrum(u, p.n, p.dir, pad, w, bfft)
    }
  }

  ghost predicate TwidSolves<T(!new)>(u: Roots<T>, t: Twid<T>)
    decreases t, 1
  {
    TwidSolvable(u, t.tp) && TwidShape(u, t, t.tp)
  }

  ghost predicate TwidShape<T(!new)>(u: Roots<T>, t: Twid<T>, p: TwidProblem)
    requires TwidSolvable(u, p)
    decreases t, 0
  {
    match t {
      case AbTwid(_, l, table) =>
        p.howmany1 == 1 && !l.unityRow && TableHolds(u, p, l, table)
      case AcTwid(_, l, table) =>
        l.interleave == 1 && !l.unityRow && TableHolds(u, p, l, table)
      case RaderTwid(_, m, table, fwd, bwd, perm, rev, bfft) =>
        && m == p.n - 1
        && Solves(u, fwd, BatchProblem(m, p.howmany0, -1)) && !Convolves(fwd)
        && Solves(u, bwd, BatchProblem(m, p.howmany0, 1)) && !Convolves(bwd)
        && RaderTables(p.n, perm, rev) && RaderSpectrum(u, p.n, p.dir, perm, bfft)
        && TableHolds(u, p, TableLayout(1, 1, true), table)
      case BluesteinTwid(_, pad, table, fwd, bwd, w, bfft) =>
        && Divides(2 * p.n, u.order)
        && Solves(u, fwd, BatchProblem(pad, p.howmany0, -1)) && !Convolves(fwd)
        && Solves(u, bwd, BatchProblem(pad, p.howmany0, 1)) && !Convolves(bwd)
        && ChirpSpectrum(u, p.n, p.dir, pad, w, bfft)
        && TableHolds(u, p, TableLayout(1, 1, false), table)
    }
  }

  /** What a two-stage plan consists of. */
  lemma Stages<T(!new)>(u: Roots<T>, plan: Plan<T>, p: Problem)
    requires plan.CooleyTukeyPlan? && Solves(u, plan, p)
    ensures Solvable(u, p) && p.n * p.howmany > 0
    ensures plan.n == p.n && plan.howmany == p.howmany
    ensures Radix(plan.stage2) > 0 && Splits(p, Radix(plan.stage2))
    ensures Solves(u, plan.stage1, Stage1(p, Radix(plan.stage2)))
    ensures plan.stage2.tp == Stage2(p, Radix(plan.stage2)) && TwidSolves(u, plan.stage2)
    ensures Size(plan) == 1 + Size(plan.stage1) + TwidSize(plan.stage2)
    ensures Convolves(plan) == (Convolves(plan.stage1) || TwidConvolves(plan.stage2))
  {
    assert Shape(u, plan, p);
    MulGrows(p.n, p.howmany);
  }

  lemma SolvesSolvable<T(!new)>(u: Roots<T>, plan: Plan<T>, p: Problem)
    requires Solves(u, plan, p)
    ensures Solvable(u, p)
  {
  }

  /** The two plans transform a packed interleaved buffer forth and back. */
  ghost predicate ConvolutionPlans<T(!new)>(u: Roots<T>, m: int, howmany: int, fwd: Plan<T>, bwd: Plan<T>) {
    && Solves(u, fwd, BatchProblem(m, howmany, -1)) && !Convolves(fwd)
    && Solves(u, bwd, BatchProblem(m, howmany, 1)) && !Convolves(bwd)
  }

  /** What a plan by Rader's algorithm consists of. */
  lemma RaderParts<T(!new)>(u: Roots<T>, plan: Plan<T>, p: Problem)
    requires (plan.RaderSingle? || plan.RaderBatch?) && Solves(u, plan, p)
    ensures Solvable(u, p) && p.n > 2 && Divides(p.n - 1, u.order)
    ensures plan.RaderSingle? ==> p.howmany == 1 && plan.n == p.n && plan.istride == p.istride && plan.ostride == p.ostride
    ensures plan.RaderBatch? ==> plan.p == p && plan.astride == p.howmany
    ensures plan.m == p.n - 1 && ConvolutionPlans(u, p.n - 1, p.howmany, plan.fwd, plan.bwd)
    ensures RaderTables(p.n, plan.perm, plan.rev) && RaderSpectrum(u, p.n, p.dir, plan.perm, plan.bfft)
    ensures Size(plan) == 2 + Size(plan.fwd) + Size(plan.bwd) && Convolves(plan)
  {
    hide RaderSpectrum, Divides;
    assert Shape(u, plan, p);
    SolvesSolvable(u, plan.fwd, BatchProblem(p.n - 1, p.howmany, -1));
  }

  lemma BluesteinParts<T(!new)>(u: Roots<T>, plan: Plan<T>, p: Problem)
    requires (plan.BluesteinSingle? || plan.BluesteinBatch?) && Solves(u, plan, p)
    ensures Solvable(u, p) && plan.pad > 0 && Divides(plan.pad, u.order) && Divides(2 * p.n, u.order)
    ensures plan.BluesteinSingle? ==> p.howmany == 1 && plan.n == p.n && plan.istride == p.istride && plan.ostride == p.ostride
    ensures plan.BluesteinBatch? ==> plan.p == p
    ensures ConvolutionPlans(u, plan.pad, p.howmany, plan.fwd, plan.bwd)
    ensures ChirpSpectrum(u, p.n, p.dir, plan.pad, plan.w, plan.bfft)
    ensures Size(plan) == 2 + Size(plan.fwd) + Size(plan.bwd) && Convolves(plan)
  {
    hide ChirpSpectrum, Divides;
    assert Shape(u, plan, p);
    SolvesSolvable(u, plan.fwd, BatchProblem(plan.pad, p.howmany, -1));
  }

  lemma RaderTwidParts<T(!new)>(u: Roots<T>, t: Twid<T>)
    requires t.RaderTwid? && TwidSolves(u, t)
    ensures TwidSolvable(u, t.tp) && t.tp.n > 2 && Divides(t.tp.n, u.order) && Divides(t.tp.n - 1, u.order)
    ensures t.m == t.tp.n - 1 && ConvolutionPlans(u, t.tp.n - 1, t.tp.howmany0, t.fwd, t.bwd)
    ensures RaderTables(t.tp.n, t.perm, t.rev) && RaderSpectrum(u, t.tp.n, t.tp.dir, t.perm, t.bfft)
    ensures TableHolds(u, t.tp, TableLayout(1, 1, true), t.table)
    ensures TwidSize(t) == 2 + Size(t.fwd) + Size(t.bwd) && TwidConvolves(t)
  {
    hide RaderSpectrum, TableHolds;
    assert TwidShape(u, t, t.tp);
    DividesFactor(t.tp.n, t.tp.howmany0, u.order);
    SolvesSolvable(u, t.fwd, BatchProblem(t.tp.n - 1, t.tp.howmany0, -1));
  }

  lemma BluesteinTwidParts<T(!new)>(u: Roots<T>, t: Twid<T>)
    requires t.BluesteinTwid? && TwidSolves(u, t)
    ensures TwidSolvable(u, t.tp) && t.pad > 0 && Divides(t.pad, u.order) && Divides(2 * t.tp.n, u.order)
    ensures ConvolutionPlans(u, t.pad, t.tp.howmany0, t.fwd, t.bwd)
    ensures ChirpSpectrum(u, t.tp.n, t.tp.dir, t.pad, t.w, t.bfft)
    ensures TableHolds(u, t.tp, TableLayout(1, 1, false), t.table)
    ensures TwidSize(t) == 2 + Size(t.fwd) + Size(t.bwd) && TwidConvolves(t)
  {
    hide ChirpSpectrum, Divides, TableHolds;
    assert TwidShape(u, t, t.tp);
    SolvesSolvable(u, t.fwd, BatchProblem(t.pad, t.tp.howmany0, -1));
  }

  lemma LoopParts<T(!new)>(u: Roots<T>, plan: Plan<T>, p: Problem)
    requires plan.Loop? && Solves(u, plan, p)
    ensures Solvable(u, p) && plan.howmany == p.howmany && plan.idist == p.idist && plan.odist == p.odist
    ensures Solves(u, plan.inner, Member(p))
    ensures Size(plan) == 1 + Size(plan.inner) && Convolves(plan) == Convolves(plan.inner)
  {
    assert Shape(u, plan, p);
  }

  // ----- plans from their parts

  lemma LoopSolves<T(!new)>(u: Roots<T>, plan: Plan<T>, p: Problem)
    requires plan.Loop? && Solvable(u, p) && Solves(u, plan.inner, Member(p))
    requires plan.howmany == p.howmany && plan.idist == p.idist && plan.odist == p.odist
    ensures Solves(u, plan, p) && Convolves(plan) == Convolves(plan.inner)
  {
    assert Shape(u, plan, p);
  }

  lemma StagesSolve<T(!new)>(u: Roots<T>, plan: Plan<T>, p: Problem)
    requires plan.CooleyTukeyPlan? && Solvable(u, p) && plan.n == p.n && plan.howmany == p.howmany
    requires Radix(plan.stage2) > 0 && Splits(p, Radix(plan.stage2))
    requires Solves(u, plan.stage1, Stage1(p, Radix(plan.stage2)))
    requires plan.stage2.tp == Stage2(p, Radix(plan.stage2)) && TwidSolves(u, plan.stage2)
    ensures Solves(u, plan, p) && Convolves(plan) == (Convolves(plan.stage1) || TwidConvolves(plan.stage2))
  {
    assert Shape(u, plan, p);
  }

  lemma RadixQuotient(n: pos, r: int)
    requires r >= 2 && n % r == 0
    ensures 0 < n / r < n && r * (n / r) == n
  {
    var m := n / r;
    assert n == r * m;
    if m <= 0 { MulGrows(r, m - 1); }
    MulGrows(m, r - 1);
    assert m * (r - 1) == r * m - m;
  }

  lemma StageAsked<T>(u: Roots<T>, p: Problem, r: int)
    requires Solvable(u, p) && r >= 2 && Splits(p, r)
    ensures 0 < p.n / r < p.n && p.howmany * r > 0
    ensures Stage1(p, r).n == p.n / r && Stage1(p, r).howmany > 0 && Stage1(p, r).dir == p.dir
    ensures TwidSolvable(u, Stage2(p, r)) && Stage2(p, r).n == r && Stage2(p, r).howmany0 == p.n / r
  {
    hide Divides;
    RadixQuotient(p.n, r);
    MulGrows(p.howmany, r);
  }

  lemma DirectTwidSolves<T(!new)>(u: Roots<T>, t: Twid<T>)
    requires TwidSolvable(u, t.tp)
    requires t.AbTwid? || t.AcTwid?
    requires !t.layout.unityRow && TableHolds(u, t.tp, t.layout, t.table)
    requires if t.AbTwid? then t.tp.howmany1 == 1 else t.layout.interleave == 1
    ensures TwidSolves(u, t) && !TwidConvolves(t)
  {
    assert TwidShape(u, t, t.tp);
  }

  lemma RaderSolves<T(!new)>(u: Roots<T>, plan: Plan<T>, p: Problem)
    requires (plan.RaderSingle? || plan.RaderBatch?) && Solvable(u, p) && plan.m == p.n - 1
    requires plan.RaderSingle? ==> p.howmany == 1 && plan.n == p.n && plan.istride == p.istride && plan.ostride == p.ostride
    requires plan.RaderBatch? ==> plan.p == p && plan.astride == p.howmany
    requires ConvolutionPlans(u, p.n - 1, p.howmany, plan.fwd, plan.bwd)
    requires RaderTables(p.n, plan.perm, plan.rev) && RaderSpectrum(u, p.n, p.dir, plan.perm, plan.bfft)
    ensures Solves(u, plan, p)
  {
    hide RaderTables, RaderSpectrum, Divides;
    assert Shape(u, plan, p);
  }

  lemma BluesteinSolves<T(!new)>(u: Roots<T>, plan: Plan<T>, p: Problem)
    requires (plan.BluesteinSingle? || plan.BluesteinBatch?) && Solvable(u, p) && Divides(2 * p.n, u.order)
    requires plan.BluesteinSingle? ==> p.howmany == 1 && plan.n == p.n && plan.istride == p.istride && plan.ostride == p.ostride
    requires plan.BluesteinBatch? ==> plan.p == p
    requires ConvolutionPlans(u, plan.pad, p.howmany, plan.fwd, plan.bwd)
    requires ChirpSpectrum(u, p.n, p.dir, plan.pad, plan.w, plan.bfft)
    ensures Solves(u, plan, p)
  {
    hide ChirpSpectrum, Divides;
    assert Shape(u, plan, p);
  }

  lemma ConvolvedTwidSolves<T(!new)>(u: Roots<T>, t: Twid<T>)
    requires TwidSolvable(u, t.tp) && (t.RaderTwid? || t.BluesteinTwid?)
    requires ConvolutionPlans(u, if t.RaderTwid? then t.tp.n - 1 else t.pad, t.tp.howmany0, t.fwd, t.bwd)
    requires t.RaderTwid? ==>
      && t.m == t.tp.n - 1 && RaderTables(t.tp.n, t.perm, t.rev) && RaderSpectrum(u, t.tp.n, t.tp.dir, t.perm, t.bfft)
      && TableHolds(u, t.tp, TableLayout(1, 1, true), t.table)
    requires t.BluesteinTwid? ==>
      && Divides(2 * t.tp.n, u.order) && ChirpSpectrum(u, t.tp.n, t.tp.dir, t.pad, t.w, t.bfft)
      && TableHolds(u, t.tp, TableLayout(1, 1, false), t.table)
    ensures TwidSolves(u, t)
  {
    hide RaderTables, RaderSpectrum, ChirpSpectrum, Divides, TableHolds;
    assert TwidShape(u, t, t.tp);
  }
}
