/** Plan trees for transforms from real to half-complex data, and their execution. */
module RealPlans {
  import opened Integers
  import opened Algebra
  import opened Roots
  import opened Transform
  import opened Memory
  import opened Twiddle
  import opened Plans
  import opened ScratchMemory
  import opened Execution
  import opened RealSpectrum
  import opened RealKernels
  import opened RealStages

  /** The first n / 2 + 1 outputs of every batch member. */
  ghost predicate HalfSolved<T(!new)>(u: Roots<T>, p: Problem, xs: seq<T>, xl: Layout, after: seq<T>, yl: Layout) {
    forall h, k {:trigger yl.At(h, k)} :: 0 <= h < p.howmany && 0 <= k < p.n / 2 + 1 && 0 <= yl.At(h, k) < |after| ==>
      after[yl.At(h, k)] == Dft(u, p.n, p.dir, Column(u, xs, xl, h), k)
  }

  ghost predicate RealRoom(p: Problem, xl: Layout, xlen: int, yl: Layout, ylen: int) {
    && Within(xl, p.howmany, p.n, xlen)
    && Within(yl, p.howmany, p.n / 2 + 1, ylen)
    && Separate(yl, p.howmany, p.n / 2 + 1)
  }

  ghost predicate RealInput<T(!new)>(u: Roots<T>, p: Problem, xs: seq<T>, xl: Layout) {
    forall h {:trigger Column(u, xs, xl, h)} :: 0 <= h < p.howmany ==> Real(u, p.n, Column(u, xs, xl, h))
  }

  // ----- one Cooley-Tukey step

  /** The columns the second stage reads, up to half, are outputs of the interleaved subsequences. */
  lemma HalfColumn<T(!new)>(u: Roots<T>, p: Problem, r: pos, xs: seq<T>, xo: int, mid: seq<T>, b: int, i: int, j: int)
    requires Splits(p, r) && |mid| >= p.n * p.howmany
    requires HalfSolved(u, Stage1(p, r), xs, Stage1(p, r).In(xo), mid, Stage1(p, r).Out(0))
    requires 0 <= b < p.howmany && 0 <= i && 2 * i <= p.n / r && i < p.n / r && 0 <= j < r
    ensures Column(u, mid, Stage2(p, r).In(0, b), i)(j)
         == SubOutputs(u, r, p.n / r, p.dir, Column(u, xs, p.In(xo), b), i)(j)
  {
    var m, q, s1 := p.n / r, Ix(p.howmany, b, j), Stage1(p, r);
    InnerIndex(p.howmany, r, b, j);
    StageAddresses(p, r, xo, 0, b, i, j, 0, 0);
    MiddleAddress(p, r, q, i);
    var x, y := Column(u, xs, s1.In(xo), q), Every(Column(u, xs, p.In(xo), b), r, j);
    forall t | 0 <= t < m ensures x(t) == y(t) {
      StageAddresses(p, r, xo, 0, b, i, j, t, 0);
    }
    DftExt(u, m, p.dir, x, y, i);
  }

  lemma HalfOutputExt<T(!new)>(u: Roots<T>, r: nat, m: int, d: int, f: int -> int -> T, g: int -> int -> T, h: int, k: int)
    requires 0 <= h < m
    requires forall i, j :: 0 <= i < m && 2 * i <= m && 0 <= j < r ==> f(i)(j) == g(i)(j)
    ensures HalfOutput(u, r, m, d, f, h, k) == HalfOutput(u, r, m, d, g, h, k)
  {
    if 2 * h <= m {
      KernelExt(u, r, d, f(h), g(h), Twiddles(u, r * m, d, h), Twiddles(u, r * m, d, h), k);
    } else {
      KernelExt(u, r, d, f(m - h), g(m - h), Twiddles(u, r * m, d, m - h), Twiddles(u, r * m, d, m - h), r - 1 - k);
    }
  }

  lemma RealElement<T(!new)>(u: Roots<T>, p: Problem, r: pos, xs: seq<T>, xo: int, mid: seq<T>, b: int, i: int, k: int)
    requires IsRoots(u) && IsConjugation(u) && Splits(p, r) && Divides(p.n, u.order) && (p.dir == 1 || p.dir == -1)
    requires |mid| >= p.n * p.howmany && RealInput(u, p, xs, p.In(xo))
    requires HalfSolved(u, Stage1(p, r), xs, Stage1(p, r).In(xo), mid, Stage1(p, r).Out(0))
    requires 0 <= b < p.howmany && 0 <= i < p.n / r && 0 <= k < r
    ensures Wanted(u, Stage2(p, r), mid, 0, b, i, k) == Dft(u, p.n, p.dir, Column(u, xs, p.In(xo), b), Ix(p.n / r, i, k))
  {
    var m: pos := p.n / r;
    assert p.n == r * m;
    var x := Column(u, xs, p.In(xo), b);
    assert Real(u, r * m, x);
    hide Layout.At, Ix, KernelValue, Twiddles, Dft, IsRoots, Divides, IsConjugation, Real, HalfOutput;
    var f, g := StageColumns(u, Stage2(p, r), mid, 0, b), SubSpectra(u, r, m, p.dir, x);
    forall i, j | 0 <= i < m && 2 * i <= m && 0 <= j < r ensures f(i)(j) == g(i)(j) {
      HalfColumn(u, p, r, xs, xo, mid, b, i, j);
    }
    hide SubOutputs, HalfSolved;
    HalfOutputExt(u, r, m, p.dir, f, g, i, k);
    HalfSpectrum(u, r, m, p.dir, x, i, k);
  }

  /** Two stages solve the problem: the second completes the half spectra of the first. */
  lemma RealStagesSolve<T(!new)>(u: Roots<T>, p: Problem, r: pos, xs: seq<T>, xo: int, mid: seq<T>, before: seq<T>, after: seq<T>, yo: int)
    requires IsRoots(u) && IsConjugation(u) && Splits(p, r) && Divides(p.n, u.order) && (p.dir == 1 || p.dir == -1)
    requires |mid| >= p.n * p.howmany && RealInput(u, p, xs, p.In(xo))
    requires HalfSolved(u, Stage1(p, r), xs, Stage1(p, r).In(xo), mid, Stage1(p, r).Out(0))
    requires HalfDone(u, Stage2(p, r), mid, 0, before, after, yo)
    ensures HalfSolved(u, p, xs, p.In(xo), after, p.Out(yo))
    ensures OnlyTouched(p.Out(yo), p.howmany, p.n / 2 + 1, before, after)
  {
    hide Layout.At, Ix, Dft, IsRoots, Divides, IsConjugation, Wanted, RealInput, Half;
    var m, s2 := p.n / r, Stage2(p, r);
    assert p.n == r * m;
    forall b, K {:trigger p.Out(yo).At(b, K)} | 0 <= b < p.howmany && 0 <= K < p.n / 2 + 1 && 0 <= p.Out(yo).At(b, K) < |after|
      ensures after[p.Out(yo).At(b, K)] == Dft(u, p.n, p.dir, Column(u, xs, p.In(xo), b), K)
    {
      var i, k := K % m, K / m;
      HalfIndex(p.n, r, K);
      StageAddresses(p, r, xo, yo, b, i, 0, 0, k);
      assert s2.Out(yo, b).At(i, k) == p.Out(yo).At(b, K);
      RealElement(u, p, r, xs, xo, mid, b, i, k);
    }
    forall a | TouchesPlace(s2, Half(r, m), yo, a) ensures Touches(p.Out(yo), p.howmany, p.n / 2 + 1, a) {
      var b, i, k :| 0 <= b < p.howmany && (i, k) in Half(r, m) && s2.Out(yo, b).At(i, k) == a;
      HalfPlace(p.n, r, i, k);
      StageAddresses(p, r, xo, yo, b, i, 0, 0, k);
      assert p.Out(yo).At(b, Ix(m, i, k)) == a;
    }
  }

  /** The places of the half spectrum are the outputs up to n / 2. */
  lemma HalfIndex(n: pos, r: pos, K: int)
    requires n % r == 0 && 0 <= K < n / 2 + 1 && n > 1
    ensures n / r > 0 && (K % (n / r), K / (n / r)) in Half(r, n / r) && K == Ix(n / r, K % (n / r), K / (n / r))
    ensures 0 <= K % (n / r) < n / r && 0 <= K / (n / r) < r
  {
    OutputIndex(n, r, K);
    assert n == r * (n / r);
  }

  lemma HalfPlace(n: pos, r: pos, i: int, k: int)
    requires n % r == 0 && n / r > 0 && (i, k) in Half(r, n / r)
    ensures 0 <= i < n / r && 0 <= k < r && 0 <= Ix(n / r, i, k) < n / 2 + 1
  {
    assert n == r * (n / r);
    InnerIndex(n / r, r, i, k);
  }

  /** The second stage has room when the problem has. */
  lemma RealStage2Room(p: Problem, r: pos, mid: int, yo: int, ylen: int)
    requires Splits(p, r) && r > 1 && mid >= p.n * p.howmany
    requires Within(p.Out(yo), p.howmany, p.n / 2 + 1, ylen) && Separate(p.Out(yo), p.howmany, p.n / 2 + 1)
    ensures HalfRoom(Stage2(p, r), 0, mid, yo, ylen)
  {
    var s2, m := Stage2(p, r), p.n / r;
    assert p.n == r * m;
    hide Half;
    forall b, i, j | 0 <= b < p.howmany && 0 <= 2 * i <= m && 0 <= j < r ensures 0 <= s2.In(0, b).At(i, j) < mid {
      StageAddresses(p, r, 0, yo, b, i, j, 0, 0);
      InnerIndex(p.howmany, r, b, j);
      MiddleAddress(p, r, Ix(p.howmany, b, j), i);
    }
    forall b, i, k | 0 <= b < p.howmany && (i, k) in Half(r, m) ensures 0 <= s2.Out(yo, b).At(i, k) < ylen {
      HalfPlace(p.n, r, i, k);
      StageAddresses(p, r, 0, yo, b, i, 0, 0, k);
    }
    forall b, i, k, b', i', k' {:trigger s2.Out(yo, b).At(i, k), s2.Out(yo, b').At(i', k')}
      | 0 <= b < p.howmany && 0 <= b' < p.howmany && (i, k) in Half(r, m) && (i', k') in Half(r, m)
        && s2.Out(yo, b).At(i, k) == s2.Out(yo, b').At(i', k')
      ensures b == b' && i == i' && k == k'
    {
      HalfPlace(p.n, r, i, k);
      HalfPlace(p.n, r, i', k');
      StageAddresses(p, r, 0, yo, b, i, 0, 0, k);
      StageAddresses(p, r, 0, yo, b', i', 0, 0, k');
      PackedSeparate(m, i, k, i', k');
    }
  }

  // ----- plan trees

  datatype RealPlan<T> =
    | RealDirect(p: Problem)
    | RealLoop(howmany: int, idist: int, odist: int, inner: RealPlan<T>)
    | RealCooleyTukey(n: int, howmany: int, stage1: RealPlan<T>, stage2: RealTwid<T>)

  /** The plan has the shape that some strategy gives a plan for p. */
  ghost predicate RealSolves<T(!new)>(u: Roots<T>, plan: RealPlan<T>, p: Problem)
    decreases plan
  {
    && Solvable(u, p)
    && match plan {
         case RealDirect(q) => q == p
         case RealLoop(howmany, idist, odist, inner) =>
           howmany == p.howmany && idist == p.idist && odist == p.odist && RealSolves(u, inner, Member(p))
         case RealCooleyTukey(n, howmany, stage1, stage2) =>
           var r := stage2.tp.n;
           n == p.n && howmany == p.howmany && r > 1 && Splits(p, r) && RealTwidSolves(u, stage2) && stage2.tp == Stage2(p, r)
           && RealSolves(u, stage1, Stage1(p, r))
       }
  }

  method ExecuteRealDirect<T(!new)>(u: Roots<T>, p: Problem, x: array<T>, xo: int, y: array<T>, yo: int)
    requires IsRoots(u) && p.n > 0 && p.howmany > 0 && x != y
    requires RealRoom(p, p.In(xo), x.Length, p.Out(yo), y.Length)
    modifies y
    ensures HalfSolved(u, p, x[..], p.In(xo), y[..], p.Out(yo))
    ensures OnlyTouched(p.Out(yo), p.howmany, p.n / 2 + 1, old(y[..]), y[..])
  {
    hide Layout.At;
    KernelUpto(u, p.n, p.n / 2 + 1, p.dir, x, p.In(xo), y, p.Out(yo), p.howmany, _ => Const(u.ring.one));
    forall h, k {:trigger p.Out(yo).At(h, k)} | 0 <= h < p.howmany && 0 <= k < p.n / 2 + 1
      ensures y[p.Out(yo).At(h, k)] == Dft(u, p.n, p.dir, Column(u, x[..], p.In(xo), h), k)
    {
      KernelOfOnes(u, p.n, p.dir, Column(u, x[..], p.In(xo), h), k);
    }
  }

  /** Every plan tree for a real problem writes the half spectra of the batch and nothing else. */
  method ExecuteReal<T(!new)>(u: Roots<T>, s: Scratch<T>, plan: RealPlan<T>, p: Problem, x: array<T>, xo: int, y: array<T>, yo: int)
    requires IsRoots(u) && IsConjugation(u) && RealSolves(u, plan, p) && s.Valid()
    requires RealRoom(p, p.In(xo), x.Length, p.Out(yo), y.Length) && RealInput(u, p, x[..], p.In(xo))
    requires x != y && {x, y} !! s.Free()
    modifies s, s.Free(), y
    ensures HalfSolved(u, p, x[..], p.In(xo), y[..], p.Out(yo)) && x[..] == old(x[..])
    ensures OnlyTouched(p.Out(yo), p.howmany, p.n / 2 + 1, old(y[..]), y[..])
    ensures s.Kept() && s.rader == old(s.rader) && s.bluestein == old(s.bluestein)
    decreases plan, 2
  {
    match plan
    case RealDirect(_) => ExecuteRealDirect(u, p, x, xo, y, yo);
    case RealLoop(_, _, _, _) => ExecuteRealLoop(u, s, plan, p, x, xo, y, yo);
    case RealCooleyTukey(n, howmany, _, _) =>
      hide Layout.At, RealSolves, IsRoots, IsConjugation, RealRoom, RealInput, HalfSolved, OnlyTouched;
      assert n == p.n > 0 && howmany == p.howmany > 0 by { RealParts(u, plan, p); }
      MulGrows(n, howmany);
      var buffer := s.Push(u.ring.zero, n * howmany);
      ExecuteRealStages(u, s, plan, p, x, xo, buffer, y, yo);
      s.Release();
  }

  lemma RealParts<T(!new)>(u: Roots<T>, plan: RealPlan<T>, p: Problem)
    requires RealSolves(u, plan, p)
    ensures Solvable(u, p)
    ensures plan.RealCooleyTukey? ==> var r := plan.stage2.tp.n;
      && plan.n == p.n && plan.howmany == p.howmany && r > 1 && Splits(p, r)
      && RealTwidSolves(u, plan.stage2) && plan.stage2.tp == Stage2(p, r) && RealSolves(u, plan.stage1, Stage1(p, r))
    ensures plan.RealLoop? ==>
      plan.howmany == p.howmany && plan.idist == p.idist && plan.odist == p.odist && RealSolves(u, plan.inner, Member(p))
  {
  }

  lemma RealStage1Room(p: Problem, r: pos, xo: int, xlen: int, mid: int)
    requires Splits(p, r) && Within(p.In(xo), p.howmany, p.n, xlen) && mid >= p.n * p.howmany
    ensures RealRoom(Stage1(p, r), Stage1(p, r).In(xo), xlen, Stage1(p, r).Out(0), mid)
  {
    Stage1Room(p, r, xo, xlen, mid);
    hide Layout.At, Stage1;
    var s := Stage1(p, r);
    assert s.n > 0 ==> s.n / 2 + 1 <= s.n || s.n == 1;
  }

  /** The subsequences of a real input are real. */
  lemma RealStage1Input<T(!new)>(u: Roots<T>, p: Problem, r: pos, xs: seq<T>, xo: int)
    requires Splits(p, r) && RealInput(u, p, xs, p.In(xo))
    ensures RealInput(u, Stage1(p, r), xs, Stage1(p, r).In(xo))
  {
    var s1, m := Stage1(p, r), p.n / r;
    assert p.n == r * m;
    forall q | 0 <= q < s1.howmany ensures Real(u, m, Column(u, xs, s1.In(xo), q)) {
      var b, j := q % p.howmany, q / p.howmany;
      MemberIndex(p, r, q);
      assert Real(u, p.n, Column(u, xs, p.In(xo), b));
      forall t | 0 <= t < m ensures u.conj(Column(u, xs, s1.In(xo), q)(t)) == Column(u, xs, s1.In(xo), q)(t) {
        StageAddresses(p, r, xo, 0, b, 0, j, t, 0);
        InnerIndex(r, m, j, t);
        assert Column(u, xs, s1.In(xo), q)(t) == Column(u, xs, p.In(xo), b)(Ix(r, j, t));
      }
    }
  }

  method ExecuteRealStages<T(!new)>(u: Roots<T>, s: Scratch<T>, plan: RealPlan<T>, p: Problem,
                                    x: array<T>, xo: int, buffer: array<T>, y: array<T>, yo: int)
    requires IsRoots(u) && IsConjugation(u) && plan.RealCooleyTukey? && RealSolves(u, plan, p) && s.Valid()
    requires RealRoom(p, p.In(xo), x.Length, p.Out(yo), y.Length) && RealInput(u, p, x[..], p.In(xo))
    requires buffer.Length >= plan.n * plan.howmany
    requires x != y && {x, y} !! {buffer} && {x, y, buffer} !! s.Free()
    modifies s, s.Free(), buffer, y
    ensures HalfSolved(u, p, x[..], p.In(xo), y[..], p.Out(yo)) && x[..] == old(x[..])
    ensures OnlyTouched(p.Out(yo), p.howmany, p.n / 2 + 1, old(y[..]), y[..])
    ensures s.Kept() && s.rader == old(s.rader) && s.bluestein == old(s.bluestein)
    decreases plan, 0
  {
    RealParts(u, plan, p);
    ghost var xs, before := x[..], y[..];
    var r: int := plan.stage2.tp.n;
    RealStage1Room(p, r, xo, x.Length, buffer.Length);
    RealStage1Input(u, p, r, xs, xo);
    RealStage2Room(p, r, buffer.Length, yo, y.Length);
    hide Layout.At, Stage1, Stage2, Separate, Within, HalfRoom, RealSolves, RealTwidSolves, HalfSolved, HalfDone, OnlyTouched,
         IsRoots, IsConjugation, Divides, RealRoom, RealInput;
    ExecuteReal(u, s, plan.stage1, Stage1(p, r), x, xo, buffer, 0);
    ghost var mid := buffer[..];
    assert x[..] == xs && y[..] == before;
    if plan.stage2.AbReal? {
      ExecuteAbReal(u, plan.stage2, buffer, 0, y, yo);
    } else {
      ExecuteAcReal(u, plan.stage2, buffer, 0, y, yo);
    }
    assert x[..] == xs && buffer[..] == mid;
    RealStagesSolve(u, p, r, xs, xo, mid, before, y[..], yo);
  }

  // ----- loops

  lemma RealMemberRoom<T(!new)>(u: Roots<T>, p: Problem, i: int, xs: seq<T>, xo: int, yo: int, ylen: int)
    requires 0 <= i < p.howmany && RealRoom(p, p.In(xo), |xs|, p.Out(yo), ylen) && RealInput(u, p, xs, p.In(xo))
    ensures var m := Member(p); var xi, yi := xo + i * p.idist, yo + i * p.odist;
      RealRoom(m, m.In(xi), |xs|, m.Out(yi), ylen) && RealInput(u, m, xs, m.In(xi))
  {
    var xl, yl, xi, yi := p.In(xo), p.Out(yo), Member(p).In(xo + i * p.idist), Member(p).Out(yo + i * p.odist);
    forall k ensures xi.At(0, k) == xl.At(i, k) && yi.At(0, k) == yl.At(i, k) {
      MemberAddresses(p, i, xo, yo, k);
    }
    hide Layout.At;
    assert forall h, k {:trigger xi.At(h, k)} :: 0 <= h < 1 ==> xi.At(h, k) == xl.At(i, k);
    assert forall h, k {:trigger yi.At(h, k)} :: 0 <= h < 1 ==> yi.At(h, k) == yl.At(i, k);
    assert Real(u, p.n, Column(u, xs, xl, i));
    assert forall j {:trigger xi.At(0, j)} :: Column(u, xs, xi, 0)(j) == Column(u, xs, xl, i)(j);
  }

  lemma RealLoopStep<T(!new)>(u: Roots<T>, p: Problem, i: int, xs: seq<T>, xo: int, ys: seq<T>, before: seq<T>, after: seq<T>, yo: int)
    requires 0 <= i < p.howmany && p.n >= 0 && Separate(p.Out(yo), p.howmany, p.n / 2 + 1)
    requires HalfSolved(u, p.(howmany := i), xs, p.In(xo), before, p.Out(yo)) && OnlyTouched(p.Out(yo), i, p.n / 2 + 1, ys, before)
    requires HalfSolved(u, Member(p), xs, Member(p).In(xo + i * p.idist), after, Member(p).Out(yo + i * p.odist))
    requires OnlyTouched(Member(p).Out(yo + i * p.odist), 1, p.n / 2 + 1, before, after)
    ensures HalfSolved(u, p.(howmany := i + 1), xs, p.In(xo), after, p.Out(yo))
    ensures OnlyTouched(p.Out(yo), i + 1, p.n / 2 + 1, ys, after)
  {
    var xi, yi, yl := Member(p).In(xo + i * p.idist), Member(p).Out(yo + i * p.odist), p.Out(yo);
    forall k ensures xi.At(0, k) == p.In(xo).At(i, k) && yi.At(0, k) == yl.At(i, k) {
      MemberAddresses(p, i, xo, yo, k);
    }
    hide Layout.At, Dft;
    forall h, k {:trigger yl.At(h, k)} | 0 <= h < i + 1 && 0 <= k < p.n / 2 + 1 && 0 <= yl.At(h, k) < |after|
      ensures after[yl.At(h, k)] == Dft(u, p.n, p.dir, Column(u, xs, p.In(xo), h), k)
    {
      if h == i {
        DftExt(u, p.n, p.dir, Column(u, xs, xi, 0), Column(u, xs, p.In(xo), h), k);
        assert yi.At(0, k) == yl.At(h, k);
      } else {
        assert !Touches(yi, 1, p.n / 2 + 1, yl.At(h, k));
      }
    }
    var lim, next := p.n / 2 + 1, i + 1;
    forall a | Touches(yi, 1, lim, a) ensures Touches(yl, next, lim, a) {
      var k :| 0 <= k < lim && yi.At(0, k) == a;
      assert yl.At(i, k) == a;
    }
  }

  lemma RealLoopStart<T(!new)>(u: Roots<T>, p: Problem, xs: seq<T>, xl: Layout, ys: seq<T>, yl: Layout)
    requires p.n >= 0
    ensures HalfSolved(u, p.(howmany := 0), xs, xl, ys, yl) && OnlyTouched(yl, 0, p.n / 2 + 1, ys, ys)
  {
  }

  method ExecuteRealLoop<T(!new)>(u: Roots<T>, s: Scratch<T>, plan: RealPlan<T>, p: Problem, x: array<T>, xo: int, y: array<T>, yo: int)
    requires IsRoots(u) && IsConjugation(u) && plan.RealLoop? && RealSolves(u, plan, p) && s.Valid()
    requires RealRoom(p, p.In(xo), x.Length, p.Out(yo), y.Length) && RealInput(u, p, x[..], p.In(xo))
    requires x != y && {x, y} !! s.Free()
    modifies s, s.Free(), y
    ensures HalfSolved(u, p, x[..], p.In(xo), y[..], p.Out(yo)) && x[..] == old(x[..])
    ensures OnlyTouched(p.Out(yo), p.howmany, p.n / 2 + 1, old(y[..]), y[..])
    ensures s.Kept() && s.rader == old(s.rader) && s.bluestein == old(s.bluestein)
    decreases plan, 1
  {
    RealParts(u, plan, p);
    assert Separate(p.Out(yo), p.howmany, p.n / 2 + 1);
    hide Layout.At, RealSolves, IsRoots, IsConjugation, Within, Separate, HalfSolved, OnlyTouched, RealInput, RealRoom, Divides;
    ghost var xs, ys := x[..], y[..];
    RealLoopStart(u, p, xs, p.In(xo), ys, p.Out(yo));
    for i := 0 to p.howmany
      invariant s.Kept() && s.rader == old(s.rader) && s.bluestein == old(s.bluestein)
      invariant x[..] == xs
      invariant HalfSolved(u, p.(howmany := i), xs, p.In(xo), y[..], p.Out(yo))
      invariant OnlyTouched(p.Out(yo), i, p.n / 2 + 1, ys, y[..])
    {
      ghost var before := y[..];
      RealMemberRoom(u, p, i, xs, xo, yo, y.Length);
      ExecuteReal(u, s, plan.inner, Member(p), x, xo + i * plan.idist, y, yo + i * plan.odist);
      RealLoopStep(u, p, i, xs, xo, ys, before, y[..], yo);
    }
  }
}
