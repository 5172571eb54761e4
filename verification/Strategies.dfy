/** The planner's strategy table, and when each strategy can solve a problem. */
module Strategies {
  import opened Integers
  import opened NumberTheory
  import opened Factorize
  import opened Twiddle
  import opened Plans
  import opened WisdomTable

  datatype Strategy =
    | DirectKernel(n: int)
    | CooleyTukeyAb(r: int)
    | CooleyTukeyAc(r: int)
    | CooleyTukeyRaderAb
    | CooleyTukeyRaderAc
    | CooleyTukeyBluesteinAb
    | CooleyTukeyBluesteinAc
    | RaderAlone
    | BluesteinAlone
    | BatchLoop
    | LengthOne

  const DIRECT_LENGTHS := [2, 3, 4, 5, 6, 7, 8, 9, 10, 11, 12, 13, 14, 15, 16, 17, 18, 19, 20, 21, 22, 24, 25, 26, 28, 30, 32,
                           33, 34, 35, 36, 38, 39, 40]

  const RADICES := [40, 39, 38, 36, 35, 34, 33, 32, 30, 28, 26, 25, 24, 22, 21, 20, 19, 18, 17, 16, 15, 14, 13, 12, 11, 10, 9,
                    8, 7, 6, 5, 4, 3, 2]

  function Directs(ns: seq<int>): (s: seq<Option<Strategy>>)
    ensures |s| == |ns| && forall i :: 0 <= i < |ns| ==> s[i] == Some(DirectKernel(ns[i]))
  {
    seq(|ns|, i requires 0 <= i < |ns| => Some(DirectKernel(ns[i])))
  }

  function Abs(rs: seq<int>): (s: seq<Option<Strategy>>)
    ensures |s| == |rs| && forall i :: 0 <= i < |rs| ==> s[i] == Some(CooleyTukeyAb(rs[i]))
  {
    seq(|rs|, i requires 0 <= i < |rs| => Some(CooleyTukeyAb(rs[i])))
  }

  function Acs(rs: seq<int>): (s: seq<Option<Strategy>>)
    ensures |s| == |rs| && forall i :: 0 <= i < |rs| ==> s[i] == Some(CooleyTukeyAc(rs[i]))
  {
    seq(|rs|, i requires 0 <= i < |rs| => Some(CooleyTukeyAc(rs[i])))
  }

  function Rest(floating: bool): (s: seq<Option<Strategy>>)
    ensures |s| == 8
  {
    if floating then
      [Some(CooleyTukeyRaderAb), Some(CooleyTukeyRaderAc), Some(CooleyTukeyBluesteinAb), Some(CooleyTukeyBluesteinAc),
       Some(RaderAlone), Some(BluesteinAlone), Some(BatchLoop), Some(LengthOne)]
    else
      [None, None, None, None, None, None, Some(BatchLoop), Some(LengthOne)]
  }

  /** The table in the order strategies are tried; fixed-point types have holes for the convolutions. */
  function Table(floating: bool): seq<Option<Strategy>> {
    Directs(DIRECT_LENGTHS) + (Abs(RADICES) + (Acs(RADICES) + Rest(floating)))
  }

  /** What the kernel provider offers: kernel lengths in the order it lists them, whether the
      type is floating point, and the twiddle layouts its kernels read.
   */
  datatype Provider = Provider(ns: seq<int>, floating: bool, ab: int -> TableLayout, ac: int -> TableLayout)

  ghost predicate IsProvider(v: Provider) {
    && Kernels(v.ns)
    && (forall i :: 0 <= i < |v.ns| ==> v.ns[i] in DIRECT_LENGTHS && v.ns[i] in RADICES)
    && (forall n :: !v.ab(n).unityRow && v.ab(n).slots <= 2)
    && (forall n :: !v.ac(n).unityRow && v.ac(n).slots <= 2 && v.ac(n).interleave == 1)
  }

  // ----- feasibility

  ghost predicate LeastFactor(n: int, r: int) { r >= 2 && Zero(r, n) && NoFactorBelow(n, r) }

  /** A plan for length n exists: always with convolutions, else exactly for products of kernel lengths. */
  ghost predicate Plannable(ns: seq<int>, convolutions: bool, n: int) { convolutions || Smooth(n, ns) }

  predicate PackedBatch(p: Problem) { p.howmany > 1 && p.istride == p.howmany * p.idist && p.odist == 1 }

  /** The least factor of a composite length is a convolution length. */
  ghost predicate ConvolvedRadix(ns: seq<int>, n: int, r: int) {
    n > 2 && !Prime(n) && LeastFactor(n, r) && r !in ns
  }

  /** The strategy finds a plan for p. */
  ghost predicate Feasible(ns: seq<int>, convolutions: bool, st: Strategy, p: Problem) {
    match st
    case DirectKernel(n) => p.n == n && n in ns
    case CooleyTukeyAb(r) => 0 < r < p.n && p.n % r == 0 && r in ns && p.howmany == 1 && Plannable(ns, convolutions, p.n / r)
    case CooleyTukeyAc(r) => 0 < r < p.n && p.n % r == 0 && r in ns && PackedBatch(p) && Plannable(ns, convolutions, p.n / r)
    case CooleyTukeyRaderAb =>
      convolutions && p.howmany == 1 && exists r :: ConvolvedRadix(ns, p.n, r) && Smooth(r - 1, ns)
    case CooleyTukeyRaderAc =>
      convolutions && PackedBatch(p) && exists r :: ConvolvedRadix(ns, p.n, r) && Smooth(r - 1, ns)
    case CooleyTukeyBluesteinAb =>
      convolutions && p.howmany == 1 && exists r :: ConvolvedRadix(ns, p.n, r)
    case CooleyTukeyBluesteinAc =>
      convolutions && PackedBatch(p) && exists r :: ConvolvedRadix(ns, p.n, r)
    case RaderAlone => convolutions && p.n !in ns && p.n > 2 && Prime(p.n) && Smooth(p.n - 1, ns)
    case BluesteinAlone => convolutions && p.n !in ns && p.n > 2 && Prime(p.n)
    case BatchLoop => p.n > 1 && p.howmany > 1 && Plannable(ns, convolutions, p.n)
    case LengthOne => p.n == 1
  }

  ghost predicate FeasibleAt(v: Provider, convolutions: bool, i: int, p: Problem) {
    0 <= i < |Table(v.floating)| && Table(v.floating)[i].Some? && Feasible(v.ns, convolutions, Table(v.floating)[i].value, p)
  }

  predicate ByRader(st: Strategy) { st.CooleyTukeyRaderAb? || st.CooleyTukeyRaderAc? }

  predicate Single(st: Strategy) { st.CooleyTukeyRaderAb? || st.CooleyTukeyBluesteinAb? }

  predicate ConvolvesRadix(st: Strategy) { ByRader(st) || st.CooleyTukeyBluesteinAb? || st.CooleyTukeyBluesteinAc? }

  predicate FitsBatch(st: Strategy, p: Problem) { if Single(st) then p.howmany == 1 else PackedBatch(p) }

  /** The plan has the form that the strategy gives a plan for p. */
  predicate MadeBy<T>(st: Strategy, p: Problem, plan: Plan<T>) {
    match st
    case DirectKernel(n) => plan.Direct? && plan.p == p && p.n == n
    case CooleyTukeyAb(r) => plan.CooleyTukeyPlan? && plan.stage2.AbTwid? && Radix(plan.stage2) == r
    case CooleyTukeyAc(r) => plan.CooleyTukeyPlan? && plan.stage2.AcTwid? && Radix(plan.stage2) == r
    case RaderAlone => if p.howmany == 1 then plan.RaderSingle? else plan.RaderBatch?
    case BluesteinAlone => if p.howmany == 1 then plan.BluesteinSingle? else plan.BluesteinBatch?
    case BatchLoop => plan.Loop?
    case LengthOne => plan.Fft1?
    case _ =>
      FitsBatch(st, p) && plan.CooleyTukeyPlan? && (if ByRader(st) then plan.stage2.RaderTwid? else plan.stage2.BluesteinTwid?)
  }

  /** A second stage without a kernel takes the least factor, and pads to the next product of kernel lengths. */
  ghost predicate PaddedStage<T>(ns: seq<int>, n: int, t: Twid<T>) {
    match t
    case RaderTwid(tp, _, _, _, _, _, _, _) => LeastFactor(n, tp.n)
    case BluesteinTwid(tp, pad, _, _, _, _, _) => LeastFactor(n, tp.n) && NextLength(2 * tp.n - 1, ns, pad)
    case _ => true
  }

  /** So does every node of the tree. */
  ghost predicate Padded<T>(ns: seq<int>, plan: Plan<T>) {
    match plan
    case Loop(_, _, _, inner) => Padded(ns, inner)
    case CooleyTukeyPlan(n, _, stage1, stage2) => Padded(ns, stage1) && PaddedStage(ns, n, stage2)
    case BluesteinSingle(n, _, _, pad, _, _, _, _) => NextLength(2 * n - 1, ns, pad)
    case BluesteinBatch(p, pad, _, _, _, _) => NextLength(2 * p.n - 1, ns, pad)
    case _ => true
  }

  lemma ConvolvedMade<T>(st: Strategy, p: Problem, plan: Plan<T>)
    requires ConvolvesRadix(st) && FitsBatch(st, p) && plan.CooleyTukeyPlan?
    requires if ByRader(st) then plan.stage2.RaderTwid? else plan.stage2.BluesteinTwid?
    ensures MadeBy(st, p, plan)
  {
  }

  lemma JoinPadded<T>(ns: seq<int>, plan: Plan<T>)
    requires plan.CooleyTukeyPlan? && Padded(ns, plan.stage1) && PaddedStage(ns, plan.n, plan.stage2)
    ensures Padded(ns, plan)
  {
  }

  /** A stage without a kernel, as the planner makes it. */
  lemma StagePadded<T>(ns: seq<int>, n: int, r: int, pad: int, t: Twid<T>)
    requires LeastFactor(n, r) && t.tp.n == r && (t.BluesteinTwid? ==> t.pad == pad && NextLength(2 * r - 1, ns, pad))
    ensures PaddedStage(ns, n, t)
  {
  }

  /** A plan tells the strategy that made it. */
  lemma OneMaker<T>(a: Strategy, b: Strategy, p: Problem, plan: Plan<T>)
    requires MadeBy(a, p, plan) && MadeBy(b, p, plan)
    ensures a == b
  {
  }

  /** The feasibility of a convolved radix in terms of the least factor. */
  lemma ConvolvedRadixFeasible(ns: seq<int>, convolutions: bool, st: Strategy, p: Problem, f: int)
    requires ConvolvesRadix(st) && p.n > 2 && LeastFactor(p.n, f)
    ensures Feasible(ns, convolutions, st, p) <==>
              convolutions && FitsBatch(st, p) && !Prime(p.n) && f !in ns && (ByRader(st) ==> Smooth(f - 1, ns))
  {
    hide LeastFactor, Smooth, Prime;
    forall r | ConvolvedRadix(ns, p.n, r) ensures r == f { LeastFactorUnique(p.n, r, f); }
    assert ConvolvedRadix(ns, p.n, f) <==> !Prime(p.n) && f !in ns;
    hide ConvolvedRadix;
    if Feasible(ns, convolutions, st, p) {
      var r :| ConvolvedRadix(ns, p.n, r) && (ByRader(st) ==> Smooth(r - 1, ns));
    } else {
      assert !(ConvolvedRadix(ns, p.n, f) && convolutions && FitsBatch(st, p) && (ByRader(st) ==> Smooth(f - 1, ns)));
    }
  }

  lemma ConvolvedRadixInfeasible(ns: seq<int>, convolutions: bool, st: Strategy, p: Problem)
    requires ConvolvesRadix(st) && (!convolutions || !FitsBatch(st, p) || p.n <= 2)
    ensures !Feasible(ns, convolutions, st, p)
  {
  }

  lemma LeastFactorUnique(n: int, r: int, r': int)
    requires LeastFactor(n, r) && LeastFactor(n, r')
    ensures r == r'
  {
  }

  /** A feasible strategy means the problem is plannable. */
  lemma FeasiblePlannable(ns: seq<int>, convolutions: bool, st: Strategy, p: Problem)
    requires Kernels(ns) && p.n > 0 && Feasible(ns, convolutions, st, p)
    ensures Plannable(ns, convolutions, p.n)
  {
    if !convolutions {
      match st
      case DirectKernel(n) =>
        ModUnique(n, n, 1, 0);
      case CooleyTukeyAb(r) => Composed(ns, r, p.n);
      case CooleyTukeyAc(r) => Composed(ns, r, p.n);
      case _ =>
    }
  }

  lemma Composed(ns: seq<int>, r: int, n: int)
    requires Kernels(ns) && 0 < r < n && n % r == 0 && r in ns && Smooth(n / r, ns)
    ensures Smooth(n, ns)
  {
    ProperQuotient(n, r);
  }

  /** A plannable problem has a feasible strategy in the table. */
  lemma PlannableFeasible(v: Provider, convolutions: bool, p: Problem) returns (i: nat)
    requires IsProvider(v) && p.n > 0 && p.howmany > 0
    requires Plannable(v.ns, convolutions, p.n) && (convolutions ==> v.floating)
    ensures FeasibleAt(v, convolutions, i, p)
  {
    var st := PlannableStrategy(v.ns, convolutions, p);
    i := Listed(v, st);
  }

  lemma PlannableStrategy(ns: seq<int>, convolutions: bool, p: Problem) returns (st: Strategy)
    requires Kernels(ns) && p.n > 0 && p.howmany > 0 && Plannable(ns, convolutions, p.n)
    ensures Feasible(ns, convolutions, st, p)
    ensures st.DirectKernel? ==> st.n in ns
    ensures st.CooleyTukeyAb? ==> st.r in ns
    ensures !st.CooleyTukeyAc? && (st.CooleyTukeyBluesteinAb? || st.BluesteinAlone? ==> convolutions)
    ensures !st.CooleyTukeyRaderAb? && !st.CooleyTukeyRaderAc? && !st.CooleyTukeyBluesteinAc? && !st.RaderAlone?
  {
    var n := p.n;
    if n == 1 {
      st := LengthOne;
    } else if n in ns {
      st := DirectKernel(n);
    } else if p.howmany > 1 {
      st := BatchLoop;
    } else if Smooth(n, ns) {
      var r :| r in ns && r >= 2 && n % r == 0 && 0 < n / r < n && Smooth(n / r, ns);
      ProperQuotient(n, r);
      KernelBelow(n, r, ns);
      st := CooleyTukeyAb(r);
    } else if Prime(n) {
      st := BluesteinAlone;
    } else {
      var r := FindLeastFactor(n);
      if r in ns {
        ProperQuotient(n, r);
        KernelBelow(n, r, ns);
        st := CooleyTukeyAb(r);
      } else {
        assert ConvolvedRadix(ns, n, r);
        st := CooleyTukeyBluesteinAb;
      }
    }
  }

  lemma KernelBelow(n: int, r: int, ns: seq<int>)
    requires n > 0 && r >= 2 && n % r == 0 && r in ns && n !in ns
    ensures r < n
  {
    if r > n { ModUnique(n, r, 0, n); }
  }

  lemma FindLeastFactor(n: int) returns (r: int)
    requires n > 1
    ensures LeastFactor(n, r)
  {
    ZeroIntro(n, 1);
    r := 2;
    while !Zero(r, n)
      invariant 2 <= r <= n && NoFactorBelow(n, r)
      decreases n - r
    {
      r := r + 1;
    }
  }

  /** Where the table lists a strategy. */
  lemma Listed(v: Provider, st: Strategy) returns (i: nat)
    requires IsProvider(v)
    requires match st
      case DirectKernel(n) => n in v.ns
      case CooleyTukeyAb(r) => r in v.ns
      case BatchLoop => true
      case LengthOne => true
      case CooleyTukeyBluesteinAb => v.floating
      case BluesteinAlone => v.floating
      case _ => false
    ensures i < |Table(v.floating)| && Table(v.floating)[i] == Some(st)
  {
    hide DIRECT_LENGTHS, RADICES;
    var a, b := Directs(DIRECT_LENGTHS), Abs(RADICES);
    var c, d := Acs(RADICES), Rest(v.floating);
    var ks, rs := DIRECT_LENGTHS, RADICES;
    assert |a| == |ks| && |b| == |rs|;
    assert st.DirectKernel? ==> st.n in ks;
    assert st.CooleyTukeyAb? ==> st.r in rs;
    match st
    case DirectKernel(n) =>
      i :| 0 <= i < |ks| && ks[i] == n;
      assert a[i] == Some(st);
    case CooleyTukeyAb(r) =>
      var j :| 0 <= j < |rs| && rs[j] == r;
      assert b[j] == Some(st);
      i := |a| + j;
    case CooleyTukeyBluesteinAb => i := InRest(a, b, c, d, 2);
    case BluesteinAlone => i := InRest(a, b, c, d, 5);
    case BatchLoop => i := InRest(a, b, c, d, 6);
    case LengthOne => i := InRest(a, b, c, d, 7);
  }

  lemma InRest<T>(a: seq<T>, b: seq<T>, c: seq<T>, d: seq<T>, k: nat) returns (i: nat)
    requires k < |d|
    ensures i < |a + (b + (c + d))| && (a + (b + (c + d)))[i] == d[k]
  {
    i := |a| + |b| + |c| + k;
  }
}
