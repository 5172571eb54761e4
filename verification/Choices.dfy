/** What planning without measurements chooses: the first strategy that finds a plan, said without the
    order of the table.
 */
module Choices {
  import opened Integers
  import opened NumberTheory
  import opened Factorize
  import opened Plans
  import opened WisdomTable
  import opened Strategies

  /** The strategy at best is the first of the table to find a plan. */
  ghost predicate FirstOf(t: seq<Option<Strategy>>, ns: seq<int>, convolutions: bool, best: int, p: Problem) {
    && 0 <= best < |t| && t[best].Some? && Feasible(ns, convolutions, t[best].value, p)
    && forall j :: 0 <= j < best && t[j].Some? ==> !Feasible(ns, convolutions, t[j].value, p)
  }

  /** No strategy before i can plan p. */
  ghost predicate NoneBefore(v: Provider, convolutions: bool, i: int, p: Problem) {
    forall j :: 0 <= j < i ==> !FeasibleAt(v, convolutions, j, p)
  }

  ghost predicate First(v: Provider, convolutions: bool, best: int, p: Problem) { FirstOf(Table(v.floating), v.ns, convolutions, best, p) }

  /** There is a kernel neither for the length nor for a radix that leaves something to plan. */
  ghost predicate NoKernel(ns: seq<int>, convolutions: bool, p: Problem) {
    p.n !in ns && forall r ::
      !Feasible(ns, convolutions, CooleyTukeyAb(r), p) && !Feasible(ns, convolutions, CooleyTukeyAc(r), p)
  }

  /** A kernel for the whole length, else the largest radix with a kernel, else the least factor by
      Rader's algorithm, or by Bluestein's where its predecessor is no product of kernel lengths, and
      only then one batch member at a time.
   */
  ghost predicate Chosen(ns: seq<int>, convolutions: bool, st: Strategy, p: Problem) {
    && Feasible(ns, convolutions, st, p)
    && match st
       case DirectKernel(_) => true
       case CooleyTukeyAb(r) => p.n !in ns && forall q :: Feasible(ns, convolutions, CooleyTukeyAb(q), p) ==> q <= r
       case CooleyTukeyAc(r) => p.n !in ns && forall q :: Feasible(ns, convolutions, CooleyTukeyAc(q), p) ==> q <= r
       case CooleyTukeyBluesteinAb => NoKernel(ns, convolutions, p) && forall r :: ConvolvedRadix(ns, p.n, r) ==> !Smooth(r - 1, ns)
       case CooleyTukeyBluesteinAc => NoKernel(ns, convolutions, p) && forall r :: ConvolvedRadix(ns, p.n, r) ==> !Smooth(r - 1, ns)
       case BluesteinAlone => !Smooth(p.n - 1, ns)
       case BatchLoop =>
         && NoKernel(ns, convolutions, p)
         && (convolutions ==> !Prime(p.n) && (PackedBatch(p) ==> forall r :: !ConvolvedRadix(ns, p.n, r)))
       case LengthOne => true
       case _ => NoKernel(ns, convolutions, p)
  }

  // ----- the parts of the table

  ghost predicate Falling(rs: seq<int>) { forall i, j :: 0 <= i < j < |rs| ==> rs[i] > rs[j] }

  ghost predicate Parted(t: seq<Option<Strategy>>, ks: seq<int>, rs: seq<int>, rest: seq<Option<Strategy>>) {
    && |t| == |ks| + |rs| + |rs| + |rest|
    && (forall i :: 0 <= i < |ks| ==> t[i] == Some(DirectKernel(ks[i])))
    && (forall i :: 0 <= i < |rs| ==> t[|ks| + i] == Some(CooleyTukeyAb(rs[i])))
    && (forall i :: 0 <= i < |rs| ==> t[|ks| + |rs| + i] == Some(CooleyTukeyAc(rs[i])))
    && (forall i :: 0 <= i < |rest| ==> t[|ks| + |rs| + |rs| + i] == rest[i])
  }

  lemma TableParts(floating: bool)
    ensures Parted(Table(floating), DIRECT_LENGTHS, RADICES, Rest(floating))
  {
    hide DIRECT_LENGTHS, RADICES, Rest;
    var a, b, c, d := Directs(DIRECT_LENGTHS), Abs(RADICES), Acs(RADICES), Rest(floating);
    hide Directs, Abs, Acs;
    assert Table(floating) == a + (b + (c + d));
    hide Table;
  }

  lemma RadicesFall()
    ensures Falling(RADICES)
  {
  }

  /** No kernel comes before the first strategy. */
  lemma KernelsNotBefore(t: seq<Option<Strategy>>, ks: seq<int>, rs: seq<int>, rest: seq<Option<Strategy>>,
                         ns: seq<int>, convolutions: bool, best: int, p: Problem, r: int) returns (i: nat)
    requires Parted(t, ks, rs, rest) && FirstOf(t, ns, convolutions, best, p) && r in ks && r in rs
    ensures Feasible(ns, convolutions, DirectKernel(r), p) ==> best < |ks|
    ensures i < |rs| && rs[i] == r
    ensures Feasible(ns, convolutions, CooleyTukeyAb(r), p) ==> best <= |ks| + i
    ensures Feasible(ns, convolutions, CooleyTukeyAc(r), p) ==> best <= |ks| + |rs| + i
  {
    hide Feasible;
    var k :| 0 <= k < |ks| && ks[k] == r;
    i :| 0 <= i < |rs| && rs[i] == r;
    assert t[k] == Some(DirectKernel(r)) && t[|ks| + i] == Some(CooleyTukeyAb(r)) && t[|ks| + |rs| + i] == Some(CooleyTukeyAc(r));
  }

  ghost predicate Among(ns: seq<int>, ks: seq<int>) { forall n :: n in ns ==> n in ks }

  lemma FirstKernel(t: seq<Option<Strategy>>, ks: seq<int>, rs: seq<int>, rest: seq<Option<Strategy>>,
                    ns: seq<int>, convolutions: bool, best: int, p: Problem)
    requires Parted(t, ks, rs, rest) && Falling(rs) && Among(ns, ks) && Among(ns, rs) && FirstOf(t, ns, convolutions, best, p)
    requires best < |ks| + |rs| + |rs|
    ensures Chosen(ns, convolutions, t[best].value, p)
  {
    hide Plannable, Smooth, Prime;
    if best >= |ks| && p.n in ns { var _ := KernelsNotBefore(t, ks, rs, rest, ns, convolutions, best, p, p.n); }
    if |ks| <= best < |ks| + |rs| {
      assert t[|ks| + (best - |ks|)] == Some(CooleyTukeyAb(rs[best - |ks|]));
      forall q | Feasible(ns, convolutions, CooleyTukeyAb(q), p) ensures q <= rs[best - |ks|] {
        var i := KernelsNotBefore(t, ks, rs, rest, ns, convolutions, best, p, q);
      }
    } else if best >= |ks| + |rs| {
      var j := best - |ks| - |rs|;
      assert t[|ks| + |rs| + j] == Some(CooleyTukeyAc(rs[j]));
      forall q | Feasible(ns, convolutions, CooleyTukeyAc(q), p) ensures q <= rs[j] {
        var i := KernelsNotBefore(t, ks, rs, rest, ns, convolutions, best, p, q);
      }
    }
  }

  lemma FirstWithoutKernel(t: seq<Option<Strategy>>, ks: seq<int>, rs: seq<int>, rest: seq<Option<Strategy>>,
                           ns: seq<int>, convolutions: bool, best: int, p: Problem)
    requires Parted(t, ks, rs, rest) && Among(ns, ks) && Among(ns, rs) && FirstOf(t, ns, convolutions, best, p)
    requires best >= |ks| + |rs| + |rs|
    ensures NoKernel(ns, convolutions, p)
  {
    hide Plannable, Smooth, Prime;
    if p.n in ns { var _ := KernelsNotBefore(t, ks, rs, rest, ns, convolutions, best, p, p.n); }
    forall r ensures !Feasible(ns, convolutions, CooleyTukeyAb(r), p) && !Feasible(ns, convolutions, CooleyTukeyAc(r), p) {
      if r in ns { var _ := KernelsNotBefore(t, ks, rs, rest, ns, convolutions, best, p, r); }
    }
  }

  lemma FirstOfRest(t: seq<Option<Strategy>>, at: nat, floating: bool, ns: seq<int>, convolutions: bool, best: int, p: Problem)
    requires at <= |t| && t[at..] == Rest(floating) && (convolutions ==> floating)
    requires Kernels(ns) && FirstOf(t, ns, convolutions, best, p) && best >= at && NoKernel(ns, convolutions, p)
    ensures Chosen(ns, convolutions, t[best].value, p)
  {
    hide Plannable, Smooth, Prime, ConvolvedRadix, PackedBatch, NoKernel;
    assert p.n !in ns by { NoKernelLength(ns, convolutions, p); }
    var rest := t[at..];
    forall i | 0 <= i < 8 ensures t[at + i] == rest[i] {}
    assert t[at + (best - at)] == rest[best - at];
    if floating {
      assert t[at + 0] == Some(CooleyTukeyRaderAb) && t[at + 1] == Some(CooleyTukeyRaderAc) && t[at + 3] == Some(CooleyTukeyBluesteinAc);
      assert t[at + 4] == Some(RaderAlone) && t[at + 5] == Some(BluesteinAlone);
    }
  }

  lemma NoKernelLength(ns: seq<int>, convolutions: bool, p: Problem)
    requires NoKernel(ns, convolutions, p)
    ensures p.n !in ns
  {
  }

  /** The first strategy of the table that finds a plan is the one described. */
  lemma FirstIsChosen(v: Provider, convolutions: bool, best: int, p: Problem)
    requires IsProvider(v) && (convolutions ==> v.floating) && First(v, convolutions, best, p)
    ensures Chosen(v.ns, convolutions, Table(v.floating)[best].value, p)
  {
    TableParts(v.floating);
    RadicesFall();
    hide DIRECT_LENGTHS, RADICES, Table, Rest, FirstOf, Chosen, Falling, Kernels;
    var ks, rs := DIRECT_LENGTHS, RADICES;
    if best < |ks| + |rs| + |rs| {
      FirstKernel(Table(v.floating), ks, rs, Rest(v.floating), v.ns, convolutions, best, p);
    } else {
      FirstWithoutKernel(Table(v.floating), ks, rs, Rest(v.floating), v.ns, convolutions, best, p);
      assert Table(v.floating)[|ks| + |rs| + |rs|..] == Rest(v.floating);
      FirstOfRest(Table(v.floating), |ks| + |rs| + |rs|, v.floating, v.ns, convolutions, best, p);
    }
  }

  /** There is only one such strategy. */
  lemma OneChoice(ns: seq<int>, convolutions: bool, a: Strategy, b: Strategy, p: Problem)
    requires Kernels(ns) && Chosen(ns, convolutions, a, p) && Chosen(ns, convolutions, b, p)
    ensures a == b
  {
    hide Plannable, Smooth, Prime;
    NotPrime(ns, convolutions, a, p);
    NotPrime(ns, convolutions, b, p);
  }

  lemma NotPrime(ns: seq<int>, convolutions: bool, st: Strategy, p: Problem)
    requires Kernels(ns) && Feasible(ns, convolutions, st, p)
    ensures st.CooleyTukeyAb? || st.CooleyTukeyAc? ==> !Prime(p.n)
  {
    hide Plannable, Smooth;
    match st
    case CooleyTukeyAb(r) => assert Zero(r, p.n);
    case CooleyTukeyAc(r) => assert Zero(r, p.n);
    case _ =>
  }

  /** The plan is made by the strategy described. */
  ghost predicate ChosenPlan<T>(v: Provider, convolutions: bool, p: Problem, plan: Plan<T>) {
    exists st :: Chosen(v.ns, convolutions, st, p) && MadeBy(st, p, plan)
  }

  lemma FirstMakes<T>(v: Provider, convolutions: bool, best: nat, p: Problem, plan: Plan<T>)
    requires IsProvider(v) && (convolutions ==> v.floating) && FeasibleAt(v, convolutions, best, p) && NoneBefore(v, convolutions, best, p)
    requires MadeBy(Table(v.floating)[best].value, p, plan)
    ensures ChosenPlan(v, convolutions, p, plan)
  {
    hide Table, Feasible, Chosen, MadeBy, IsProvider;
    FirstFound(v, convolutions, best, p);
    FirstIsChosen(v, convolutions, best, p);
    var st := Table(v.floating)[best].value;
    assert Chosen(v.ns, convolutions, st, p) && MadeBy(st, p, plan);
  }

  lemma FirstFound(v: Provider, convolutions: bool, best: nat, p: Problem)
    requires FeasibleAt(v, convolutions, best, p) && NoneBefore(v, convolutions, best, p)
    ensures First(v, convolutions, best, p)
  {
    hide Table, Feasible;
    forall j | 0 <= j < best && Table(v.floating)[j].Some? ensures !Feasible(v.ns, convolutions, Table(v.floating)[j].value, p) {
      assert !FeasibleAt(v, convolutions, j, p);
    }
  }
}
