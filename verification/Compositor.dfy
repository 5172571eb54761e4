/** The multi-level compositor: one level for each factor of the length, through two buffers. */
module Compositor {
  import opened Integers
  import opened Algebra
  import opened Roots
  import opened Transform
  import opened Memory
  import opened Twiddle
  import opened Plans
  import opened Factorize
  import F = Factorization
  import opened Execution
  import opened Tables
  import opened Strategies
  import opened Parallel

  /** How a level calls its kernel. */
  datatype Params = Params(howmany: int, istride: int, ostride: int, idist: int, odist: int)

  function NKernelParams(n: int, n1: pos, n2: int, howmany: int, istride: int, ostride: int, idist: int, odist: int): Params {
    if n == n1 && n2 == 1 then
      Params(howmany, istride, ostride, idist, odist)
    else
      var hm := n / n1;
      Params(hm, istride * hm, hm, istride, 1)
  }

  function DirectTLevelParams(n: int, n1: pos, n2: pos, istride: int, ostride: int): Params {
    var hm := n / (n1 * n2);
    if hm != 1 then Params(hm, hm, hm * n2, hm * n1, hm) else Params(n2, 1, ostride * n2, n1, ostride)
  }

  datatype Level<T> = NLevel(p: Problem) | TLevel(t: Twid<T>)

  /** The batch of a twiddled level. Internal levels pass their howmany to each kernel call, the
      last level passes one kernel call all its columns.
   */
  function LevelTwid(n: int, n1: pos, n2: pos, istride: int, ostride: int, dir: int): TwidProblem {
    var q := DirectTLevelParams(n, n1, n2, istride, ostride);
    if n / (n1 * n2) != 1 then
      TwidProblem(n1, q.istride, q.ostride, n2, q.idist, q.odist, q.howmany, dir)
    else
      TwidProblem(n1, q.istride, q.ostride, q.howmany, q.idist, q.odist, 1, dir)
  }

  /** An ordering of factors of n, as the auditions permute them. */
  ghost predicate Factors(n: int, fs: seq<int>) {
    fs != [] && Product(fs) == n && forall i :: 0 <= i < |fs| ==> fs[i] >= 2
  }

  /** The product of the factors from i on. */
  function Rest(fs: seq<int>, i: int): int
    requires 0 <= i <= |fs|
  {
    Product(fs[i..])
  }

  lemma {:induction false} ProductGrows(fs: seq<int>)
    requires forall i :: 0 <= i < |fs| ==> fs[i] >= 2
    ensures Product(fs) >= 1 && (fs != [] ==> Product(fs) >= 2)
  {
    if fs != [] {
      ProductGrows(fs[1..]);
      MulGrows(fs[0], Product(fs[1..]));
    }
  }

  /** The lengths around level i: done before it, its factor, and left after it. */
  lemma {:induction false} Heights(n: int, fs: seq<int>, i: int)
    requires Factors(n, fs) && 0 <= i < |fs|
    ensures Rest(fs, i) == fs[i] * Rest(fs, i + 1)
    ensures Product(fs[..i + 1]) == Product(fs[..i]) * fs[i]
    ensures Product(fs[..i]) * Rest(fs, i) == n
    ensures Rest(fs, i + 1) >= 1 && (i + 1 < |fs| ==> Rest(fs, i + 1) >= 2) && (i + 1 == |fs| ==> Rest(fs, i + 1) == 1)
    ensures Product(fs[..i]) >= 1 && (i > 0 ==> Product(fs[..i]) >= 2) && (i == 0 ==> Product(fs[..i]) == 1)
    decreases i
  {
    assert fs[i..][1..] == fs[i + 1..];
    assert fs[..i + 1] == fs[..i] + [fs[i]];
    F.ProductAppend(fs[..i], fs[i]);
    ProductGrows(fs[i + 1..]);
    ProductGrows(fs[..i]);
    if i == 0 {
      assert fs[0..] == fs;
    } else {
      Heights(n, fs, i - 1);
      F.Regroup(Product(fs[..i - 1]), fs[i - 1], Rest(fs, i));
    }
  }

  /** What has been solved once the levels left have product h: the transforms of the h
      interleaved subsequences, or everything.
   */
  function LevelProblem(p: Problem, h: pos): Problem { if h == 1 then p else Stage1(p, h) }

  lemma LevelProducts(n: int, done: int, f: int, h: int)
    requires done >= 1 && f >= 2 && h >= 1 && n == done * (f * h)
    ensures f * h >= 2 && f * done >= 2 && done * f == f * done && n == (f * h) * done && n == h * (done * f) && n == (f * done) * h
  {
    MulGrows(f, h);
    MulGrows(f, done);
    F.Regroup(done, f, h);
  }

  lemma Bigger(a: int, b: int)
    requires a >= 1 && b >= 1
    ensures a < a * b <==> b > 1
    ensures a * b >= a
  {
    assert a * b - a == a * (b - 1);
    MulGrows(a, b - 1);
  }

  lemma LevelNumbers(n: int, done: int, f: int, h: int, s: int)
    requires done >= 1 && f >= 2 && h >= 1 && n == done * (f * h)
    ensures f * h >= 2 && f * done > 0 && n > 0
    ensures n / (f * h) == done && n % (f * h) == 0 && (f * h < n <==> done > 1)
    ensures n / h == done * f && n % h == 0 && h < n
    ensures done * f / f == done && done * f % f == 0 && (f < done * f <==> done > 1)
    ensures n / (f * done) == h
    ensures s * h * f == s * (f * h) && h * f == f * h && h * done == done * h
  {
    LevelProducts(n, done, f, h);
    var fh, fd := f * h, done * f;
    Bigger(fh, done);
    Bigger(f, done);
    Bigger(h, fd);
    ModUnique(n, fh, done, 0);
    ModUnique(n, h, fd, 0);
    ModUnique(fd, f, done, 0);
    ModUnique(n, fd, h, 0);
    F.Regroup(s, h, f);
  }

  /** A level with factor f takes the subsequences of h f to those of h, by the parameters the
      level computes for itself.
   */
  lemma LevelStep(p: Problem, done: int, f: int, h: int)
    requires p.howmany == 1 && done >= 1 && f >= 2 && h >= 1 && p.n == done * (f * h)
    ensures f * h >= 2 && p.n / (f * h) == done && p.n / h == done * f
    ensures Stage1(LevelProblem(p, h), f) == Stage1(p, f * h)
    ensures done > 1 ==> Plans.Splits(p, f * h) && Plans.Splits(LevelProblem(p, h), f)
    ensures h > 1 ==> Plans.Splits(p, h)
    ensures Stage2(LevelProblem(p, h), f) == LevelTwid(p.n, f, done, p.istride, p.ostride, p.dir)
  {
    LevelNumbers(p.n, done, f, h, p.istride);
    var m, fh, fd, hd, df, shf, sfh := p.n / h, f * h, f * done, h * done, done * f, p.istride * h * f, p.istride * (f * h);
    assert Stage1(p, fh) == Problem(done, sfh, fh, fh, p.istride, 1, p.dir);
    assert Plans.Splits(p, fh) <==> done > 1;
    assert Plans.Splits(p, h);
    if h == 1 {
      assert p.istride * 1 * f == p.istride * f;
    } else {
      assert LevelProblem(p, h) == Problem(df, p.istride * h, h, h, p.istride, 1, p.dir);
      assert Stage1(LevelProblem(p, h), f) == Problem(df / f, shf, h * f, h * f, p.istride, 1, p.dir);
    }
  }

  // ----- building the levels

  /** Level i of several takes the problem from the factors before it to the factors up to it. */
  ghost predicate LevelFits<T(!new)>(u: Roots<T>, p: Problem, fs: seq<int>, i: int, level: Level<T>)
    requires 0 <= i < |fs|
  {
    && Rest(fs, i + 1) >= 1 && fs[i] >= 2
    && level.TLevel? && TwidSolves(u, level.t)
    && level.t.tp == Stage2(LevelProblem(p, Rest(fs, i + 1)), fs[i])
    && (if i + 1 < |fs| then level.t.AcTwid? else level.t.AbTwid?)
  }

  ghost predicate LevelsFit<T(!new)>(u: Roots<T>, p: Problem, fs: seq<int>, levels: seq<Level<T>>) {
    && |levels| <= |fs|
    && (forall i :: 1 <= i < |levels| ==> LevelFits(u, p, fs, i, levels[i]))
  }

  ghost predicate Composed<T(!new)>(u: Roots<T>, p: Problem, fs: seq<int>, levels: seq<Level<T>>) {
    && Factors(p.n, fs) && |levels| == |fs|
    && levels[0].NLevel?
    && (|fs| == 1 ==> levels[0].p == p)
    && (|fs| > 1 ==> Rest(fs, 1) >= 1 && levels[0].p == Stage1(Member(p), Rest(fs, 1)))
    && LevelsFit(u, Member(p), fs, levels)
  }

  lemma FirstLevel(p: Problem, fs: seq<int>)
    requires Factors(p.n, fs)
    ensures var n2 := if |fs| > 1 then fs[1] else 1; var h := Rest(fs, 1);
      var q := NKernelParams(p.n, fs[0], n2, p.howmany, p.istride, p.ostride, p.idist, p.odist);
      h >= 1 && Problem(fs[0], q.istride, q.ostride, q.howmany, q.idist, q.odist, p.dir) ==
                if |fs| == 1 then p else Stage1(Member(p), h)
  {
    Heights(p.n, fs, 0);
    LevelNumbers(p.n, 1, fs[0], Rest(fs, 1), p.istride);
    assert fs[0] * Rest(fs, 1) == p.n;
    ModUnique(p.n, fs[0], Rest(fs, 1), 0);
  }

  lemma LevelFactor(n: int, f: pos, done: pos, h: int, order: pos)
    requires n == done * (f * h) && n > 0 && Divides(n, order) && h >= 1
    ensures f * done > 0 && Divides(f * done, order)
  {
    MulGrows(f, done);
    assert n == (f * done) * h by { assert (done * f) * h == done * (f * h); }
    DividesFactor(f * done, h, order);
  }

  /** The batch of a level is one a twiddled stage can solve. */
  lemma LevelSolvable<T>(u: Roots<T>, p: Problem, fs: seq<int>, fi: int)
    requires Solvable(u, p) && p.howmany == 1 && Factors(p.n, fs) && 1 <= fi < |fs|
    ensures fs[fi] >= 2 && Product(fs[..fi]) >= 2 && Rest(fs, fi + 1) >= 1
    ensures var tp := LevelTwid(p.n, fs[fi], Product(fs[..fi]), p.istride, p.ostride, p.dir);
      && TwidSolvable(u, tp) && tp == Stage2(LevelProblem(p, Rest(fs, fi + 1)), fs[fi])
      && (fi + 1 == |fs| ==> tp.howmany1 == 1)
  {
    hide Rest, Product, Divides;
    var f, done, h := fs[fi], Product(fs[..fi]), Rest(fs, fi + 1);
    Heights(p.n, fs, fi);
    LevelStep(p, done, f, h);
    LevelFactor(p.n, f, done, h, u.order);
    LevelNumbers(p.n, done, f, h, 0);
  }

  lemma LevelMade<T(!new)>(u: Roots<T>, p: Problem, fs: seq<int>, fi: int, t: Twid<T>, l: TableLayout, table: seq<T>)
    requires 1 <= fi < |fs| && fs[fi] >= 2 && Rest(fs, fi + 1) >= 1
    requires var last := fi + 1 == |fs|;
      && t == (if last then AbTwid(t.tp, l, table) else AcTwid(t.tp, l, table))
      && TwidSolvable(u, t.tp) && t.tp == Stage2(LevelProblem(p, Rest(fs, fi + 1)), fs[fi])
      && TableHolds(u, t.tp, l, table) && !l.unityRow && (if last then t.tp.howmany1 == 1 else l.interleave == 1)
    ensures LevelFits(u, p, fs, fi, TLevel(t))
  {
    hide TableHolds, TwidSolvable, Rest, Stage2, LevelProblem;
    assert TwidShape(u, t, t.tp);
  }

  method MakeLevel<T(!new)>(u: Roots<T>, v: Provider, p: Problem, ghost fs: seq<int>, ghost fi: int,
                            n1: int, n2: int, last: bool) returns (level: Level<T>)
    requires Solvable(u, p) && p.howmany == 1 && IsProvider(v) && Factors(p.n, fs)
    requires 1 <= fi < |fs| && n1 == fs[fi] && n2 == Product(fs[..fi]) && last == (fi + 1 == |fs|)
    ensures LevelFits(u, p, fs, fi, level)
  {
    hide Rest, Product, LevelProblem, Stage2, Divides, Factors;
    LevelSolvable(u, p, fs, fi);
    var tp := LevelTwid(p.n, n1, n2, p.istride, p.ostride, p.dir);
    hide LevelTwid;
    var layout := if last then v.ab(n1) else v.ac(n1);
    var table := PrepareTwiddles(u, tp, layout);
    level := TLevel(if last then AbTwid(tp, layout, table) else AcTwid(tp, layout, table));
    hide TableHolds, TwidSolvable, IsProvider;
    LevelMade(u, p, fs, fi, level.t, layout, table);
  }

  method CompositeInit<T(!new)>(u: Roots<T>, v: Provider, p: Problem, factors: seq<int>) returns (levels: seq<Level<T>>)
    requires HasImaginary(u) && Solvable(u, p) && IsProvider(v) && Factors(p.n, factors)
    ensures Composed(u, p, factors, levels)
  {
    FirstLevel(p, factors);
    assert Solvable(u, Member(p));
    var n1 := factors[0];
    var q := NKernelParams(p.n, n1, if |factors| > 1 then factors[1] else 1, p.howmany, p.istride, p.ostride, p.idist, p.odist);
    levels := [NLevel(Problem(n1, q.istride, q.ostride, q.howmany, q.idist, q.odist, p.dir))];
    var runningProduct := n1;
    Heights(p.n, factors, 0);
    hide LevelFits, IsProvider, Solvable, Rest, Product, Factors;
    for fi := 1 to |factors|
      invariant |levels| == fi && runningProduct == Product(factors[..fi])
      invariant levels[0] == NLevel(if |factors| == 1 then p else Stage1(Member(p), Rest(factors, 1)))
      invariant LevelsFit(u, Member(p), factors, levels)
    {
      Heights(p.n, factors, fi);
      var level := MakeLevel(u, v, Member(p), factors, fi, factors[fi], runningProduct, fi + 1 == |factors|);
      levels := levels + [level];
      runningProduct := runningProduct * factors[fi];
    }
  }

  // ----- executing the levels

  /** The buffer holds the transforms of the interleaved subsequences that the levels before i compute. */
  ghost predicate Reached<T(!new)>(u: Roots<T>, p: Problem, h: pos, xs: seq<T>, xo: int, buffer: seq<T>) {
    Solved(u, Stage1(p, h), xs, Stage1(p, h).In(xo), buffer, Stage1(p, h).Out(0))
  }

  /** Several levels: the first reads the input, the last writes the output, and those between
      go from one buffer to the other.
   */
  method ExecuteLevels<T(!new)>(u: Roots<T>, maxThreads: pos, p: Problem, ghost fs: seq<int>, levels: seq<Level<T>>,
                                x: array<T>, xo: int, y: array<T>, yo: int, a: array<T>, b: array<T>)
    requires IsRoots(u) && Solvable(u, p) && p == Member(p) && Factors(p.n, fs) && |fs| > 1 && |levels| == |fs|
    requires levels[0].NLevel? && Rest(fs, 1) >= 1 && levels[0].p == Stage1(p, Rest(fs, 1)) && LevelsFit(u, p, fs, levels)
    requires Room(p, p.In(xo), x.Length, p.Out(yo), y.Length)
    requires a != b && {x, y} !! {a, b} && a.Length == b.Length == p.n
    modifies a, b, y
    ensures Solved(u, p, old(x[..]), p.In(xo), y[..], p.Out(yo))
    ensures OnlyTouched(p.Out(yo), 1, p.n, old(y[..]), y[..])
  {
    hide Rest, Factors, Solvable, IsRoots, Stage1, Stage2, Solved, OnlyTouched, Within, Separate, LevelsFit, Reached;
    ghost var xs, ys := x[..], y[..];
    var from, to := b, a;
    FirstRoom(u, p, fs, xo, x.Length);
    ExecuteDirect(u, levels[0].p, x, xo, to, 0);
    assert Reached(u, p, Rest(fs, 1), xs, xo, to[..]) by { ReachedIntro(u, p, Rest(fs, 1), xs, xo, to[..]); }
    from, to := to, from;
    for j := 1 to |levels| - 1
      invariant {from, to} == {a, b} && from != to && y[..] == ys
      invariant Rest(fs, j) >= 1 && Reached(u, p, Rest(fs, j), xs, xo, from[..])
    {
      StepRoom(u, p, fs, levels, j);
      ExecuteLevel(u, p.n, maxThreads, levels[j].t, from, 0, to, 0);
      StepReached(u, p, fs, levels, j, xs, xo, from[..], to[..]);
      from, to := to, from;
    }
    var last := |levels| - 1;
    LastRoom(u, p, fs, levels, yo, y.Length);
    ExecuteLevel(u, p.n, maxThreads, levels[last].t, from, 0, y, yo);
    LastSolved(u, p, fs, levels, xs, xo, from[..], ys, y[..], yo);
  }

  lemma ReachedIntro<T(!new)>(u: Roots<T>, p: Problem, h: pos, xs: seq<T>, xo: int, buffer: seq<T>)
    requires Solved(u, Stage1(p, h), xs, Stage1(p, h).In(xo), buffer, Stage1(p, h).Out(0))
    ensures Reached(u, p, h, xs, xo, buffer)
  {
  }

  lemma FirstRoom<T(!new)>(u: Roots<T>, p: Problem, fs: seq<int>, xo: int, xlen: int)
    requires Solvable(u, p) && p.howmany == 1 && Factors(p.n, fs) && |fs| > 1 && Within(p.In(xo), 1, p.n, xlen)
    ensures Rest(fs, 1) >= 1
    ensures var s := Stage1(p, Rest(fs, 1)); s.n > 0 && s.howmany > 0 && Room(s, s.In(xo), xlen, s.Out(0), p.n)
  {
    hide Rest, Factors, Room, Within, Separate;
    Heights(p.n, fs, 0);
    Heights(p.n, fs, 1);
    FactorBound(p.n, fs, 1);
    LevelStep(p, Product(fs[..1]), fs[1], Rest(fs, 2));
    Stage1Room(p, Rest(fs, 1), xo, xlen, p.n);
  }

  lemma FactorBound(n: int, fs: seq<int>, i: int)
    requires Factors(n, fs) && 0 <= i < |fs|
    ensures fs[i] >= 2
  {
  }

  /** What is known of level j between the first and the end. */
  lemma LevelParts<T(!new)>(u: Roots<T>, p: Problem, fs: seq<int>, levels: seq<Level<T>>, j: int)
    requires Solvable(u, p) && p.howmany == 1 && Factors(p.n, fs) && |levels| == |fs| && LevelsFit(u, p, fs, levels)
    requires 1 <= j < |fs|
    ensures Rest(fs, j + 1) >= 1 && fs[j] >= 2 && Rest(fs, j) == fs[j] * Rest(fs, j + 1)
    ensures levels[j].TLevel? && TwidSolves(u, levels[j].t) && if j + 1 < |fs| then levels[j].t.AcTwid? else levels[j].t.AbTwid?
    ensures var q := LevelProblem(p, Rest(fs, j + 1));
      && Stage1(q, fs[j]) == Stage1(p, Rest(fs, j))
      && levels[j].t.tp == Stage2(q, fs[j])
      && Plans.Splits(q, fs[j]) && q.n * q.howmany == p.n && Divides(q.n, u.order) && q.dir == p.dir
    ensures Rest(fs, j + 1) > 1 <==> j + 1 < |fs|
    ensures Rest(fs, j + 1) > 1 ==> Plans.Splits(p, Rest(fs, j + 1))
  {
    hide Rest, Factors, TwidSolves, Stage1, Stage2, Plans.Splits, Divides;
    Heights(p.n, fs, j);
    assert LevelFits(u, p, fs, j, levels[j]);
    LevelFacts(u, p, Product(fs[..j]), fs[j], Rest(fs, j + 1));
  }

  lemma LevelFacts<T>(u: Roots<T>, p: Problem, done: int, f: int, h: int)
    requires Solvable(u, p) && p.howmany == 1 && done > 1 && f >= 2 && h >= 1 && p.n == done * (f * h)
    ensures f * h >= 1 && Stage1(LevelProblem(p, h), f) == Stage1(p, f * h)
    ensures var q := LevelProblem(p, h);
      Plans.Splits(q, f) && q.n * q.howmany == p.n && Divides(q.n, u.order) && q.dir == p.dir
    ensures h > 1 ==> Plans.Splits(p, h)
  {
    LevelStep(p, done, f, h);
    LevelProducts(p.n, done, f, h);
    StageLength(u, p, done * f, h);
  }

  lemma StageLength<T>(u: Roots<T>, p: Problem, m: pos, h: pos)
    requires Solvable(u, p) && p.howmany == 1 && p.n / h == m && m * h == p.n
    ensures var q := LevelProblem(p, h); q.n * q.howmany == p.n && Divides(q.n, u.order) && q.dir == p.dir
  {
    DividesFactor(m, h, u.order);
  }

  lemma StepRoom<T(!new)>(u: Roots<T>, p: Problem, fs: seq<int>, levels: seq<Level<T>>, j: int)
    requires Solvable(u, p) && p.howmany == 1 && Factors(p.n, fs) && |levels| == |fs| && LevelsFit(u, p, fs, levels)
    requires 1 <= j < |fs| - 1
    ensures levels[j].TLevel? && TwidSolves(u, levels[j].t) && levels[j].t.AcTwid?
    ensures TwidRoom(levels[j].t.tp, 0, p.n, 0, p.n)
  {
    hide Rest, Factors, TwidSolves, TwidRoom, LevelsFit, Within, Separate;
    LevelParts(u, p, fs, levels, j);
    var h := Rest(fs, j + 1);
    assert LevelProblem(p, h) == Stage1(p, h);
    PackedRoom(p, h);
    Stage2Room(Stage1(p, h), fs[j], p.n, 0, p.n);
  }

  /** The outputs of the first stage fill the buffer. */
  lemma PackedRoom(p: Problem, h: pos)
    requires p.howmany == 1 && Plans.Splits(p, h)
    ensures var q := Stage1(p, h); Within(q.Out(0), q.howmany, q.n, p.n) && Separate(q.Out(0), q.howmany, q.n)
  {
    var s := Stage1(p, h);
    forall q, i {:trigger s.Out(0).At(q, i)} | 0 <= q < s.howmany && 0 <= i < s.n ensures 0 <= s.Out(0).At(q, i) < p.n {
      MiddleAddress(p, h, q, i);
    }
    forall q, i, q', i' {:trigger s.Out(0).At(q, i), s.Out(0).At(q', i')}
      | 0 <= q < s.howmany && 0 <= i < s.n && 0 <= q' < s.howmany && 0 <= i' < s.n && s.Out(0).At(q, i) == s.Out(0).At(q', i')
      ensures q == q' && i == i'
    {
      PackedSeparate(s.howmany, q, i, q', i');
    }
  }

  /** An internal level. */
  lemma StepReached<T(!new)>(u: Roots<T>, p: Problem, fs: seq<int>, levels: seq<Level<T>>, j: int,
                             xs: seq<T>, xo: int, from: seq<T>, to: seq<T>)
    requires IsRoots(u) && Solvable(u, p) && p.howmany == 1 && Factors(p.n, fs) && |levels| == |fs| && LevelsFit(u, p, fs, levels)
    requires 1 <= j < |fs| - 1 && |from| == |to| == p.n && Rest(fs, j) >= 1
    requires Reached(u, p, Rest(fs, j), xs, xo, from)
    requires levels[j].TLevel? && levels[j].t.tp.n >= 0 && TwidSolved(u, levels[j].t.tp, from, 0, to, 0)
    ensures Rest(fs, j + 1) >= 1 && Reached(u, p, Rest(fs, j + 1), xs, xo, to)
  {
    hide Rest, Factors, TwidSolves, LevelsFit, Within, Separate, IsRoots, Solved, TwidSolved, Stage1, Stage2, Plans.Splits, Divides;
    LevelParts(u, p, fs, levels, j);
    var h := Rest(fs, j + 1);
    assert LevelProblem(p, h) == Stage1(p, h);
    PackedRoom(p, h);
    CooleyTukeySolves(u, Stage1(p, h), fs[j], xs, xo, from, to, 0);
  }

  lemma LastRoom<T(!new)>(u: Roots<T>, p: Problem, fs: seq<int>, levels: seq<Level<T>>, yo: int, ylen: int)
    requires Solvable(u, p) && p.howmany == 1 && Factors(p.n, fs) && |levels| == |fs| > 1 && LevelsFit(u, p, fs, levels)
    requires Within(p.Out(yo), 1, p.n, ylen) && Separate(p.Out(yo), 1, p.n)
    ensures var t := levels[|fs| - 1]; t.TLevel? && TwidSolves(u, t.t) && t.t.AbTwid? && TwidRoom(t.t.tp, 0, p.n, yo, ylen)
  {
    hide Rest, Factors, TwidSolves, TwidRoom, LevelsFit, Within, Separate;
    var j := |fs| - 1;
    LevelParts(u, p, fs, levels, j);
    assert LevelProblem(p, Rest(fs, j + 1)) == p;
    Stage2Room(p, fs[j], p.n, yo, ylen);
  }

  /** The last level. */
  lemma LastSolved<T(!new)>(u: Roots<T>, p: Problem, fs: seq<int>, levels: seq<Level<T>>, xs: seq<T>, xo: int, from: seq<T>,
                            before: seq<T>, after: seq<T>, yo: int)
    requires IsRoots(u) && Solvable(u, p) && p.howmany == 1 && Factors(p.n, fs) && |levels| == |fs| > 1 && LevelsFit(u, p, fs, levels)
    requires Within(p.Out(yo), 1, p.n, |after|) && |from| == p.n && Rest(fs, |fs| - 1) >= 1
    requires Reached(u, p, Rest(fs, |fs| - 1), xs, xo, from)
    requires var t := levels[|fs| - 1]; t.TLevel? && t.t.tp.n >= 0 && TwidSolved(u, t.t.tp, from, 0, after, yo) && TwidOnlyTouched(t.t.tp, yo, before, after)
    ensures Solved(u, p, xs, p.In(xo), after, p.Out(yo)) && OnlyTouched(p.Out(yo), 1, p.n, before, after)
  {
    hide Rest, Factors, TwidSolves, LevelsFit, Within, Separate, IsRoots, Solved, TwidSolved, Stage1, Stage2, Plans.Splits, Divides,
         OnlyTouched, TwidOnlyTouched;
    var j := |fs| - 1;
    LevelParts(u, p, fs, levels, j);
    assert LevelProblem(p, Rest(fs, j + 1)) == p;
    CooleyTukeySolves(u, p, fs[j], xs, xo, from, after, yo);
    Stage2Touches(p, fs[j], yo, before, after);
  }

  /** A whole batch. One level handles the batch by itself; several levels take the members one by one. */
  method ExecuteComposition<T(!new)>(u: Roots<T>, maxThreads: pos, p: Problem, ghost fs: seq<int>, levels: seq<Level<T>>,
                                     x: array<T>, xo: int, y: array<T>, yo: int)
    requires IsRoots(u) && Solvable(u, p) && Composed(u, p, fs, levels)
    requires Room(p, p.In(xo), x.Length, p.Out(yo), y.Length)
    requires x == y ==> SameAddresses(p.In(xo), p.Out(yo), p.howmany, p.n)
    modifies y
    ensures Solved(u, p, old(x[..]), p.In(xo), y[..], p.Out(yo))
    ensures OnlyTouched(p.Out(yo), p.howmany, p.n, old(y[..]), y[..])
  {
    hide Layout.At, Rest, LevelsFit, IsRoots, Within, Separate, SameAddresses, Solved, OnlyTouched, Divides;
    if |levels| == 1 {
      ExecuteDirect(u, p, x, xo, y, yo);
      return;
    }
    ghost var xs, ys := x[..], y[..];
    var a, b := new T[p.n](_ => u.ring.zero), new T[p.n](_ => u.ring.zero);
    assert x[..] == xs && y[..] == ys;
    LoopStart(u, p, xs, p.In(xo), ys, p.Out(yo));
    for i := 0 to p.howmany
      invariant x != y ==> x[..] == xs
      invariant Solved(u, p.(howmany := i), xs, p.In(xo), y[..], p.Out(yo)) && OnlyTouched(p.Out(yo), i, p.n, ys, y[..])
    {
      ghost var now, before := x[..], y[..];
      MemberRoom(p, i, xo, x.Length, yo, y.Length, x == y);
      ExecuteLevels(u, maxThreads, Member(p), fs, levels, x, xo + i * p.idist, y, yo + i * p.odist, a, b);
      MemberUntouched(p, i, xs, now, p.In(xo), p.Out(yo), x == y);
      LoopStep(u, p, i, xs, now, xo, ys, before, y[..], yo);
    }
  }

  /** Any ordering of the factors of n, composed and executed, computes the transform. */
  method ComposeAndExecute<T(!new)>(u: Roots<T>, v: Provider, maxThreads: pos, p: Problem, factors: seq<int>,
                                    x: array<T>, xo: int, y: array<T>, yo: int)
    requires IsRoots(u) && HasImaginary(u) && Solvable(u, p) && IsProvider(v) && Factors(p.n, factors)
    requires Room(p, p.In(xo), x.Length, p.Out(yo), y.Length)
    requires x == y ==> SameAddresses(p.In(xo), p.Out(yo), p.howmany, p.n)
    modifies y
    ensures Solved(u, p, old(x[..]), p.In(xo), y[..], p.Out(yo))
    ensures OnlyTouched(p.Out(yo), p.howmany, p.n, old(y[..]), y[..])
  {
    hide IsRoots, Solvable, IsProvider, Factors, Within, Separate, SameAddresses, Solved, OnlyTouched, Composed;
    ghost var xs, ys := x[..], y[..];
    var levels := CompositeInit(u, v, p, factors);
    assert x[..] == xs && y[..] == ys;
    ExecuteComposition(u, maxThreads, p, factors, levels, x, xo, y, yo);
  }

  /** The lists the factorizations return are such orderings, for n at least 2. */
  lemma FactorizationsCompose(n: int, fs: seq<int>)
    requires F.FactorList(n, fs) && n >= 2
    ensures Factors(n, fs)
  {
  }

  /** A permutation of factors of n has the same product. */
  lemma {:induction false} PermutedFactors(n: int, fs: seq<int>, gs: seq<int>)
    requires Factors(n, fs) && multiset(gs) == multiset(fs)
    ensures Factors(n, gs)
  {
    ProductOfPermutation(fs, gs);
    forall i | 0 <= i < |gs| ensures gs[i] >= 2 {
      assert gs[i] in multiset(fs);
    }
    assert |gs| == |multiset(gs)| == |fs|;
  }

  lemma {:induction false} ProductOfPermutation(fs: seq<int>, gs: seq<int>)
    requires multiset(gs) == multiset(fs)
    ensures Product(fs) == Product(gs)
    decreases |fs|
  {
    assert |fs| == |multiset(fs)| == |gs|;
    if fs != [] {
      assert fs[0] in multiset(gs);
      var i :| 0 <= i < |gs| && gs[i] == fs[0];
      var rest := gs[..i] + gs[i + 1..];
      assert gs == gs[..i] + [gs[i]] + gs[i + 1..];
      assert multiset(rest) == multiset(gs) - multiset{fs[0]};
      assert fs == [fs[0]] + fs[1..];
      assert multiset(fs[1..]) == multiset(fs) - multiset{fs[0]};
      ProductOfPermutation(fs[1..], rest);
      PullOut(gs, i);
    }
  }

  lemma {:induction false} PullOut(gs: seq<int>, i: nat)
    requires i < |gs|
    ensures Product(gs) == gs[i] * Product(gs[..i] + gs[i + 1..])
    decreases i
  {
    var rest := gs[..i] + gs[i + 1..];
    if i == 0 {
      assert rest == gs[1..];
    } else {
      PullOut(gs[1..], i - 1);
      assert gs[1..][..i - 1] + gs[1..][i..] == rest[1..];
      F.Regroup(gs[0], gs[i], Product(rest[1..]));
    }
  }
}
