/** The planner: a recursive search over strategies with a shared memory of what worked. */
module Planner {
  import opened Integers
  import opened Algebra
  import opened Roots
  import opened Transform
  import opened Memory
  import opened Twiddle
  import opened NumberTheory
  import opened Factorize
  import opened Plans
  import opened ScratchMemory
  import opened Generator
  import opened Rader
  import opened Bluestein
  import opened Tables
  import opened Policies
  import opened WisdomTable
  import opened Strategies
  import opened Recalling
  import opened Choices

  /** What planning depends on: the roots of unity and the kernels. */
  datatype Env<!T> = Env(u: Roots<T>, provider: Provider)

  /** Roots exist for every length that plans of length n can need. */
  ghost predicate Enough<T>(u: Roots<T>, convolutions: bool, n: int) {
    forall k: pos {:trigger Divides(k, u.order)} :: k <= (if convolutions then 4 * n else n) ==> Divides(k, u.order)
  }

  ghost predicate Ready<T(!new)>(env: Env<T>, convolutions: bool, n: int) {
    IsRoots(env.u) && HasImaginary(env.u) && IsProvider(env.provider) && n > 0 && Enough(env.u, convolutions, n)
  }

  predicate Convolving<T>(env: Env<T>, policy: Policy) { env.provider.floating && policy.Contains(ALLOW_CONVOLUTIONS) }

  ghost predicate Asked(p: Problem) { p.n > 0 && p.howmany > 0 && (p.dir == 1 || p.dir == -1) }

  /** Every remembered strategy can be rebuilt under its own policy. */
  ghost predicate Sound<T>(env: Env<T>, table: map<Problem, seq<Entry>>) {
    forall p, i :: p in table && 0 <= i < |table[p]| ==>
      FeasibleAt(env.provider, Convolving(env, table[p][i].policy), table[p][i].strategy, p)
  }

  /** What planning p under a policy may return. */
  ghost predicate Planned<T(!new)>(env: Env<T>, convolutions: bool, feasible: bool, p: Problem, plan: Option<Plan<T>>) {
    && (plan.Some? <==> feasible)
    && (plan.Some? ==> Solves(env.u, plan.value, p) && (!convolutions ==> !Convolves(plan.value)) && Padded(env.provider.ns, plan.value))
  }

  lemma Shrink<T(!new)>(env: Env<T>, convolutions: bool, n: int, fewer: bool, m: int)
    requires Ready(env, convolutions, n) && m > 0 && (fewer ==> convolutions)
    requires m <= n || (convolutions && !fewer && m <= 4 * n)
    ensures Ready(env, fewer, m)
  {
  }

  lemma LengthSolvable<T(!new)>(env: Env<T>, convolutions: bool, p: Problem)
    requires Ready(env, convolutions, p.n) && Asked(p)
    ensures Solvable(env.u, p)
  {
  }

  method MakePlan<T(!new)>(env: Env<T>, s: Scratch<T>, w: Wisdom, policy: Policy, p: Problem) returns (plan: Option<Plan<T>>)
    requires Ready(env, Convolving(env, policy), p.n) && Asked(p)
    requires s.Valid() && w.Valid() && Sound(env, w.table)
    modifies s, s.Free(), w
    ensures Planned(env, Convolving(env, policy), Plannable(env.provider.ns, Convolving(env, policy), p.n), p, plan)
    ensures s.Kept() && s.rader == old(s.rader) && s.bluestein == old(s.bluestein)
    ensures w.Valid() && Sound(env, w.table)
    ensures KeepsKnown(env.provider, old(w.table), w.table, p, policy)
    ensures plan.Some? && NoneUsable(EntriesOf(old(w.table), p), policy) ==> Remembered(env.provider, w.table, p, policy, plan.value)
    ensures plan.Some? && !NoneUsable(EntriesOf(old(w.table), p), policy) ==>
              Recalled(env.provider, EntriesOf(old(w.table), p), policy, p, plan.value)
    ensures plan.Some? && NoneUsable(EntriesOf(old(w.table), p), policy) && policy.Contains(ALLOW_PRUNING) ==>
              ChosenPlan(env.provider, Convolving(env, policy), p, plan.value)
    decreases Convolving(env, policy), p.n, p.howmany > 1, 2
  {
    hide Policy.Contains, Policy.IsSubsetOf, Table, Feasible, IsRoots, IsProvider, Enough, Smooth, Solves, Convolves, Convolving,
         Ready, Plannable, Sound, KeepsFrom, KeepsKnown, RankOf, Lower, MadeBy, Remembered, Recalled, NoneUsable, Usable, Maximal, ChosenPlan;
    ghost var before: memory := w.table;
    assert w.Entries(p) == EntriesOf(before, p);
    var strategies := Table(env.provider.floating);
    var entry := w.Lookup(p, policy);
    if entry.Some? {
      var saved := entry.value;
      ghost var i := SavedIndex(EntriesOf(before, p), policy, saved);
      SavedFeasible(env, policy, saved, p, w.table, i);
      plan := TryStrategy(env, s, w, saved.policy, strategies[saved.strategy].value, p);
      RecallKeeps(env.provider, before, w.table, p, saved.policy, policy);
      if plan.Some? { RecallMakes(env.provider, EntriesOf(before, p), policy, saved, p, plan.value); }
      return plan;
    }
    NothingUsable(before, p, policy);
    var best;
    plan, best := SearchStrategies(env, s, w, policy, p);
    if plan.Some? { RememberedBy(env.provider, w.table, p, policy, plan.value, Entry(best, policy)); }
  }

  lemma SavedIndex(es: seq<Entry>, policy: Policy, saved: Entry) returns (i: int)
    requires Maximal(es, policy, saved)
    ensures 0 <= i < |es| && es[i] == saved && Usable(policy, saved) && saved.policy.IsSubsetOf(policy) && !NoneUsable(es, policy)
  {
    i :| 0 <= i < |es| && es[i] == saved;
  }

  lemma NothingUsable(t: memory, p: Problem, policy: Policy)
    requires forall i :: 0 <= i < |EntriesOf(t, p)| ==> !Usable(policy, EntriesOf(t, p)[i])
    ensures NoneUsable(EntriesOf(t, p), policy) && !Known(t, p, policy)
  {
    UnusableUnknown(t, p, policy);
  }

  lemma RecallMakes<T>(v: Provider, es: seq<Entry>, policy: Policy, saved: Entry, p: Problem, plan: Plan<T>)
    requires Maximal(es, policy, saved) && Makes(v, saved, p, plan)
    requires forall i :: 0 <= i < |es| && es[i].policy == policy ==> es[i] == saved
    ensures Recalled(v, es, policy, p, plan)
  {
    hide Maximal, Makes;
    forall e | e in es && e.policy == policy ensures Makes(v, e, p, plan) {
      var i :| 0 <= i < |es| && es[i] == e;
    }
  }

  lemma RememberedBy<T>(v: Provider, t: memory, p: Problem, policy: Policy, plan: Plan<T>, e: Entry)
    requires e in EntriesOf(t, p) && e.policy == policy && Makes(v, e, p, plan)
    ensures Remembered(v, t, p, policy, plan)
  {
  }

  lemma SavedFeasible<T(!new)>(env: Env<T>, policy: Policy, saved: Entry, p: Problem, table: map<Problem, seq<Entry>>, i: int)
    requires Ready(env, Convolving(env, policy), p.n) && Sound(env, table)
    requires p in table && 0 <= i < |table[p]| && table[p][i] == saved && Usable(policy, saved)
    ensures FeasibleAt(env.provider, Convolving(env, saved.policy), saved.strategy, p)
    ensures Plannable(env.provider.ns, Convolving(env, policy), p.n)
    ensures Convolving(env, saved.policy) ==> Convolving(env, policy)
    ensures Ready(env, Convolving(env, saved.policy), p.n)
  {
    hide Policy.Contains, Policy.IsSubsetOf, Table, Feasible, IsRoots, IsProvider, Enough, Smooth;
    assert FeasibleAt(env.provider, Convolving(env, table[p][i].policy), table[p][i].strategy, p);
    if Convolving(env, saved.policy) {
      SubsetContains(saved.policy, policy, ALLOW_CONVOLUTIONS);
    } else {
      Shrink(env, Convolving(env, policy), p.n, false, p.n);
    }
    assert Kernels(env.provider.ns) by { ProviderKernels(env.provider); }
    FeasiblePlannable(env.provider.ns, Convolving(env, saved.policy), Table(env.provider.floating)[saved.strategy].value, p);
  }

  lemma ReadyParts<T(!new)>(env: Env<T>, convolutions: bool, n: int)
    requires Ready(env, convolutions, n)
    ensures IsRoots(env.u) && IsProvider(env.provider) && Kernels(env.provider.ns)
  {
  }

  lemma ProviderKernels(v: Provider)
    requires IsProvider(v)
    ensures Kernels(v.ns)
  {
  }

  lemma UpdateSound<T(!new)>(env: Env<T>, table: map<Problem, seq<Entry>>, p: Problem, es: seq<Entry>, e: Entry)
    requires Sound(env, table) && es == (if p in table then table[p] else []) && OnePerPolicy(es)
    requires FeasibleAt(env.provider, Convolving(env, e.policy), e.strategy, p)
    ensures Sound(env, table[p := Updated(es, e)])
  {
    hide FeasibleAt, Convolving;
    UpdatedOnePerPolicy(es, e);
    var updated: map<Problem, seq<Entry>> := table[p := Updated(es, e)];
    forall q: Problem, i: int | q in updated && 0 <= i < |updated[q]|
      ensures FeasibleAt(env.provider, Convolving(env, updated[q][i].policy), updated[q][i].strategy, q)
    {
      if q == p {
        assert updated[q][i] in updated[q];
        if updated[q][i] != e {
          var j :| 0 <= j < |es| && es[j] == updated[q][i];
          assert table[p][j] == es[j];
        }
      } else {
        assert updated[q] == table[q];
      }
    }
  }

  /** The state of the search before strategy i: the plan so far is that of the best strategy so far. */
  ghost predicate Searched<T(!new)>(env: Env<T>, convolutions: bool, i: int, best: int, p: Problem, plan: Option<Plan<T>>) {
    if plan.Some? then
      && FeasibleAt(env.provider, convolutions, best, p) && Planned(env, convolutions, true, p, plan)
      && MadeBy(Table(env.provider.floating)[best].value, p, plan.value)
    else NoneBefore(env.provider, convolutions, i, p)
  }

  lemma SearchTakes<T(!new)>(env: Env<T>, convolutions: bool, i: nat, p: Problem, candidate: Option<Plan<T>>)
    requires i < |Table(env.provider.floating)| && Table(env.provider.floating)[i].Some? && candidate.Some?
    requires Planned(env, convolutions, Feasible(env.provider.ns, convolutions, Table(env.provider.floating)[i].value, p), p, candidate)
    requires MadeBy(Table(env.provider.floating)[i].value, p, candidate.value)
    ensures forall j :: Searched(env, convolutions, j, i, p, candidate)
  {
    hide Table, Feasible, Solves, Convolves;
  }

  lemma SearchSkips<T(!new)>(env: Env<T>, convolutions: bool, i: nat, best: int, p: Problem, plan: Option<Plan<T>>, candidate: Option<Plan<T>>)
    requires i < |Table(env.provider.floating)| && Searched(env, convolutions, i, best, p, plan)
    requires Table(env.provider.floating)[i].Some? && (plan.Some? || candidate.None?) ==>
      Planned(env, convolutions, Feasible(env.provider.ns, convolutions, Table(env.provider.floating)[i].value, p), p, candidate)
    requires Table(env.provider.floating)[i].Some? ==> plan.Some? || candidate.None?
    ensures Searched(env, convolutions, i + 1, best, p, plan)
  {
    hide Table, Feasible, Solves, Convolves;
  }

  lemma SearchEnds<T(!new)>(env: Env<T>, convolutions: bool, i: nat, best: int, p: Problem, plan: Option<Plan<T>>)
    requires Searched(env, convolutions, i, best, p, plan) && (plan.Some? || i == |Table(env.provider.floating)|)
    ensures Searched(env, convolutions, |Table(env.provider.floating)|, best, p, plan)
  {
    hide Table;
  }

  /** The search ends with a plan exactly when there is one. */
  lemma SearchDecides<T(!new)>(env: Env<T>, convolutions: bool, policy: Policy, p: Problem, plan: Option<Plan<T>>, best: int)
    requires IsProvider(env.provider) && Asked(p) && (convolutions ==> env.provider.floating)
    requires Searched(env, convolutions, |Table(env.provider.floating)|, best, p, plan)
    ensures plan.Some? ==> FeasibleAt(env.provider, convolutions, best, p)
    ensures plan.Some? ==> best >= 0 && Makes(env.provider, Entry(best, policy), p, plan.value)
    ensures Planned(env, convolutions, Plannable(env.provider.ns, convolutions, p.n), p, plan)
    ensures plan.Some? <==> Plannable(env.provider.ns, convolutions, p.n)
  {
    ProviderKernels(env.provider);
    hide IsProvider, Table, Feasible, Plannable;
    hide Solves, Convolves;
    if plan.Some? {
      FeasiblePlannable(env.provider.ns, convolutions, Table(env.provider.floating)[best].value, p);
    } else if Plannable(env.provider.ns, convolutions, p.n) {
      var i := PlannableFeasible(env.provider, convolutions, p);
    }
  }

  /** Tries the strategies in order. Whether time has run out and which candidate measured
      faster are arbitrary.
   */
  method SearchStrategies<T(!new)>(env: Env<T>, s: Scratch<T>, w: Wisdom, policy: Policy, p: Problem)
    returns (plan: Option<Plan<T>>, best: nat)
    requires Ready(env, Convolving(env, policy), p.n) && Asked(p)
    requires s.Valid() && w.Valid() && Sound(env, w.table) && !Known(w.table, p, policy)
    modifies s, s.Free(), w
    ensures Planned(env, Convolving(env, policy), Plannable(env.provider.ns, Convolving(env, policy), p.n), p, plan)
    ensures s.Kept() && s.rader == old(s.rader) && s.bluestein == old(s.bluestein)
    ensures w.Valid() && Sound(env, w.table)
    ensures KeepsKnown(env.provider, old(w.table), w.table, p, policy)
    ensures plan.Some? ==> Entry(best, policy) in EntriesOf(w.table, p) && Makes(env.provider, Entry(best, policy), p, plan.value)
    ensures plan.Some? && policy.Contains(ALLOW_PRUNING) ==> ChosenPlan(env.provider, Convolving(env, policy), p, plan.value)
    decreases Convolving(env, policy), p.n, p.howmany > 1, 1
  {
    ghost var convolutions := Convolving(env, policy);
    assert IsProvider(env.provider) && (convolutions ==> env.provider.floating);
    hide Policy.Contains, Policy.IsSubsetOf, Table, Feasible, IsRoots, IsProvider, Enough, Smooth, Solves, Convolves, Convolving,
         Ready, Plannable, Sound, Asked, FeasibleAt, KeepsFrom, KeepsKnown, RankOf, Lower, MadeBy, Known, Makes, Updated, OnePerPolicy, ChosenPlan;
    ghost var before: memory, rank := w.table, RankOf(env.provider, p, policy);
    KeepsAll(env.provider, before, rank);
    var strategies := Table(env.provider.floating);
    best := 0;
    var measuredBest := false;
    var stopAfterFirst := policy.Contains(ALLOW_PRUNING);
    plan := None;
    var i := 0;
    assert Searched(env, convolutions, 0, best, p, plan);
    hide Searched, Planned, NoneBefore;
    while i < |strategies|
      invariant i <= |strategies|
      invariant Searched(env, convolutions, i, best, p, plan) && (stopAfterFirst ==> plan.None?)
      invariant KeepsFrom(env.provider, before, w.table, rank)
      invariant s.Kept() && s.rader == old(s.rader) && s.bluestein == old(s.bluestein)
      invariant w.Valid() && Sound(env, w.table)
    {
      var candidate := None;
      if strategies[i].Some? {
        var timedOut: bool := *;
        if !stopAfterFirst && plan.Some? && timedOut { break; }
        ghost var mid: memory := w.table;
        candidate := TryStrategy(env, s, w, policy, strategies[i].value, p);
        KeepsBoth(env.provider, before, mid, w.table, rank);
      }
      if candidate.Some? {
        SearchTakes(env, convolutions, i, p, candidate);
        if plan.None? { SearchedNone(env, convolutions, i, best, p, plan); }
        var measured: bool := *;
        var preferred: bool := *;
        if stopAfterFirst || (!measured && plan.None?) {
          plan, best := candidate, i;
          break;
        }
        if !measured { break; }
        if plan.None? || !measuredBest || preferred {
          plan, best, measuredBest := candidate, i, true;
        }
      }
      SearchSkips(env, convolutions, i, best, p, plan, candidate);
      i := i + 1;
    }
    SearchEnds(env, convolutions, i, best, p, plan);
    SearchDecides(env, convolutions, policy, p, plan, best);
    if plan.Some? && stopAfterFirst { FirstMade(env.provider, convolutions, best, policy, p, plan.value); }
    FromKeeps(env.provider, before, w.table, p, policy);
    if plan.Some? {
      ghost var mid: memory, e := w.table, Entry(best, policy);
      assert w.Entries(p) == EntriesOf(mid, p);
      EntriesValid(w, p);
      UpdateSound(env, w.table, p, w.Entries(p), e);
      UpdateKeeps(env.provider, before, mid, p, e);
      w.Update(p, Entry(best, policy));
      assert EntriesOf(w.table, p) == Updated(EntriesOf(mid, p), e);
    }
  }

  lemma FirstMade<T>(v: Provider, convolutions: bool, best: nat, policy: Policy, p: Problem, plan: Plan<T>)
    requires IsProvider(v) && (convolutions ==> v.floating) && FeasibleAt(v, convolutions, best, p) && NoneBefore(v, convolutions, best, p)
    requires Makes(v, Entry(best, policy), p, plan)
    ensures ChosenPlan(v, convolutions, p, plan)
  {
    hide IsProvider, FeasibleAt, NoneBefore, Table, ChosenPlan, MadeBy;
    FirstMakes(v, convolutions, best, p, plan);
  }

  lemma EntriesValid(w: Wisdom, p: Problem)
    requires w.Valid()
    ensures OnePerPolicy(w.Entries(p))
  {
  }

  lemma FromKeeps(v: Provider, a: memory, b: memory, p: Problem, policy: Policy)
    requires KeepsFrom(v, a, b, RankOf(v, p, policy))
    ensures KeepsKnown(v, a, b, p, policy)
  {
    hide SameFor, RankOf, Lower;
  }

  lemma SearchedNone<T(!new)>(env: Env<T>, convolutions: bool, i: int, best: int, p: Problem, plan: Option<Plan<T>>)
    requires Searched(env, convolutions, i, best, p, plan) && plan.None?
    ensures NoneBefore(env.provider, convolutions, i, p)
  {
  }

  method TryStrategy<T(!new)>(env: Env<T>, s: Scratch<T>, w: Wisdom, policy: Policy, st: Strategy, p: Problem)
    returns (plan: Option<Plan<T>>)
    requires Ready(env, Convolving(env, policy), p.n) && Asked(p)
    requires s.Valid() && w.Valid() && Sound(env, w.table)
    modifies s, s.Free(), w
    ensures Planned(env, Convolving(env, policy), Feasible(env.provider.ns, Convolving(env, policy), st, p), p, plan)
    ensures s.Kept() && s.rader == old(s.rader) && s.bluestein == old(s.bluestein)
    ensures w.Valid() && Sound(env, w.table)
    ensures plan.Some? ==> MadeBy(st, p, plan.value)
    ensures KeepsFrom(env.provider, old(w.table), w.table, RankOf(env.provider, p, policy))
    decreases Convolving(env, policy), p.n, p.howmany > 1, 0, 1
  {
    hide Policy.Contains, Policy.IsSubsetOf, IsRoots, IsProvider, Enough, Smooth, Solves, Convolves, Convolving,
         Ready, Sound, KeepsFrom, KeepsKnown, RankOf, Lower, Remembered, Recalled, NoneUsable, TableHolds, TwidSolves, Stage1, Stage2, Divides, Planned, Feasible, Asked, MadeBy;
    KeepsAll(env.provider, w.table, RankOf(env.provider, p, policy));
    match st
    case DirectKernel(_) => plan := TryDirect(env, policy, st, p);
    case LengthOne => plan := TryDirect(env, policy, st, p);
    case BatchLoop => plan := TryLoop(env, s, w, policy, p);
    case CooleyTukeyAb(r) => plan := TryCooleyTukey(env, s, w, policy, st, r, p);
    case CooleyTukeyAc(r) => plan := TryCooleyTukey(env, s, w, policy, st, r, p);
    case RaderAlone => plan := TryRader(env, s, w, policy, p);
    case BluesteinAlone => plan := TryBluestein(env, s, w, policy, p);
    case _ => plan := TryConvolvedRadix(env, s, w, policy, st, p);
  }

  method TryDirect<T(!new)>(env: Env<T>, policy: Policy, st: Strategy, p: Problem) returns (plan: Option<Plan<T>>)
    requires Ready(env, Convolving(env, policy), p.n) && Asked(p) && (st.DirectKernel? || st.LengthOne?)
    ensures Planned(env, Convolving(env, policy), Feasible(env.provider.ns, Convolving(env, policy), st, p), p, plan)
    ensures plan.Some? ==> MadeBy(st, p, plan.value)
  {
    LengthSolvable(env, Convolving(env, policy), p);
    if st.DirectKernel? && p.n == st.n && p.n in env.provider.ns {
      plan := Some(Direct(p));
    } else if st.LengthOne? && p.n == 1 {
      plan := Some(Fft1(p.howmany, p.idist, p.odist));
    } else {
      plan := None;
    }
  }

  method TryLoop<T(!new)>(env: Env<T>, s: Scratch<T>, w: Wisdom, policy: Policy, p: Problem)
    returns (plan: Option<Plan<T>>)
    requires Ready(env, Convolving(env, policy), p.n) && Asked(p)
    requires s.Valid() && w.Valid() && Sound(env, w.table)
    modifies s, s.Free(), w
    ensures Planned(env, Convolving(env, policy), Feasible(env.provider.ns, Convolving(env, policy), BatchLoop, p), p, plan)
    ensures s.Kept() && s.rader == old(s.rader) && s.bluestein == old(s.bluestein)
    ensures w.Valid() && Sound(env, w.table)
    ensures plan.Some? ==> MadeBy(BatchLoop, p, plan.value)
    ensures KeepsFrom(env.provider, old(w.table), w.table, RankOf(env.provider, p, policy))
    decreases Convolving(env, policy), p.n, p.howmany > 1, 0, 0
  {
    LengthSolvable(env, Convolving(env, policy), p);
    KeepsAll(env.provider, w.table, RankOf(env.provider, p, policy));
    hide Policy.Contains, Policy.IsSubsetOf, IsRoots, IsProvider, Enough, Smooth, Solves, Convolves, Convolving,
         Ready, Sound, KeepsFrom, KeepsKnown, RankOf, Lower, NoneUsable, TableHolds, TwidSolves, Stage1, Stage2, Divides, Plannable, MadeBy, Remembered, Recalled, NextLength;
    plan := None;
    if p.n > 1 && p.howmany > 1 {
      ghost var before: memory := w.table;
      LowerMember(env.provider, p, policy);
      var inner := MakePlan(env, s, w, policy, Member(p));
      KeepsAbove(env.provider, before, w.table, Member(p), policy, RankOf(env.provider, p, policy));
      if inner.Some? {
        plan := Some(Plan.Loop(p.howmany, p.idist, p.odist, inner.value));
        LoopSolves(env.u, plan.value, p);
        LoopMade(p, plan.value);
      }
    }
  }

  lemma LoopMade<T>(p: Problem, plan: Plan<T>)
    requires plan.Loop?
    ensures MadeBy(BatchLoop, p, plan)
  {
  }

  lemma LowerMember(v: Provider, p: Problem, policy: Policy)
    requires p.howmany > 1
    ensures Lower(RankOf(v, Member(p), policy), RankOf(v, p, policy))
  {
  }

  lemma LowerStage(v: Provider, p: Problem, r: int, policy: Policy)
    requires r > 0 && p.n / r < p.n
    ensures Lower(RankOf(v, Stage1(p, r), policy), RankOf(v, p, policy))
  {
  }

  /** The radix strategies with a base kernel as second stage. */
  method TryCooleyTukey<T(!new)>(env: Env<T>, s: Scratch<T>, w: Wisdom, policy: Policy, st: Strategy, r: int, p: Problem)
    returns (plan: Option<Plan<T>>)
    requires Ready(env, Convolving(env, policy), p.n) && Asked(p)
    requires st == CooleyTukeyAb(r) || st == CooleyTukeyAc(r)
    requires s.Valid() && w.Valid() && Sound(env, w.table)
    modifies s, s.Free(), w
    ensures Planned(env, Convolving(env, policy), Feasible(env.provider.ns, Convolving(env, policy), st, p), p, plan)
    ensures s.Kept() && s.rader == old(s.rader) && s.bluestein == old(s.bluestein)
    ensures w.Valid() && Sound(env, w.table)
    ensures plan.Some? ==> MadeBy(st, p, plan.value)
    ensures KeepsFrom(env.provider, old(w.table), w.table, RankOf(env.provider, p, policy))
    decreases Convolving(env, policy), p.n, p.howmany > 1, 0, 0
  {
    ghost var convolutions := Convolving(env, policy);
    LengthSolvable(env, convolutions, p);
    KeepsAll(env.provider, w.table, RankOf(env.provider, p, policy));
    plan := None;
    if r in env.provider.ns && r < p.n && p.n % r == 0 && (if st.CooleyTukeyAb? then p.howmany == 1 else PackedBatch(p)) {
      KernelRadix(env.provider, r);
      StageAsked(env.u, p, r);
      Shrink(env, convolutions, p.n, convolutions, p.n / r);
      hide Policy.Contains, Policy.IsSubsetOf, IsRoots, IsProvider, Enough, Smooth, Solves, Convolves, Convolving,
         Ready, Sound, KeepsFrom, KeepsKnown, RankOf, Lower, Remembered, Recalled, NoneUsable, TableHolds, TwidSolves, Stage1, Stage2, Divides, Padded;
      ghost var before: memory := w.table;
      LowerStage(env.provider, p, r, policy);
      var stage1 := MakePlan(env, s, w, policy, Stage1(p, r));
      KeepsAbove(env.provider, before, w.table, Stage1(p, r), policy, RankOf(env.provider, p, policy));
      var tp := Stage2(p, r);
      var stage2;
      if st.CooleyTukeyAb? {
        var table := PrepareTwiddles(env.u, tp, env.provider.ab(r));
        stage2 := AbTwid(tp, env.provider.ab(r), table);
      } else {
        var table := PrepareTwiddles(env.u, tp, env.provider.ac(r));
        stage2 := AcTwid(tp, env.provider.ac(r), table);
      }
      DirectTwidSolves(env.u, stage2);
      if stage1.Some? {
        plan := Some(CooleyTukeyPlan(p.n, p.howmany, stage1.value, stage2));
        StagesSolve(env.u, plan.value, p);
        JoinPadded(env.provider.ns, plan.value);
      }
    }
  }

  lemma KernelRadix(v: Provider, r: int)
    requires IsProvider(v) && r in v.ns
    ensures r >= 2
    ensures !v.ab(r).unityRow && v.ab(r).slots <= 2
    ensures !v.ac(r).unityRow && v.ac(r).slots <= 2 && v.ac(r).interleave == 1
  {
    hide DIRECT_LENGTHS, RADICES;
  }

  // ----- convolution strategies

  /** The three plans a convolution of length m needs. */
  datatype SubPlans<T> = SubPlans(table: Plan<T>, fwd: Plan<T>, bwd: Plan<T>)

  ghost predicate Convolver<T(!new)>(u: Roots<T>, m: int, howmany: int, sub: SubPlans<T>) {
    && ConvolutionPlans(u, m, howmany, sub.fwd, sub.bwd)
    && Solves(u, sub.table, TableProblem(m)) && !Convolves(sub.table)
  }

  /** Plans the convolution without convolutions. */
  method MakeSubPlans<T(!new)>(env: Env<T>, s: Scratch<T>, w: Wisdom, policy: Policy, m: int, howmany: int, ghost r: Rank)
    returns (sub: Option<SubPlans<T>>)
    requires Ready(env, false, m) && howmany > 0 && r.convolutions
    requires s.Valid() && w.Valid() && Sound(env, w.table)
    modifies s, s.Free(), w
    ensures sub.Some? <==> Smooth(m, env.provider.ns)
    ensures sub.Some? ==> Convolver(env.u, m, howmany, sub.value)
    ensures s.Kept() && s.rader == old(s.rader) && s.bluestein == old(s.bluestein)
    ensures w.Valid() && Sound(env, w.table)
    ensures KeepsFrom(env.provider, old(w.table), w.table, r)
    decreases false, m, true, 3
  {
    var without := policy.Minus(ALLOW_CONVOLUTIONS);
    MinusRemoves(policy, ALLOW_CONVOLUTIONS);
    assert !Convolving(env, without);
    ghost var before: memory := w.table;
    LowerWithout(env.provider, without, TableProblem(m), r);
    LowerWithout(env.provider, without, BatchProblem(m, howmany, -1), r);
    LowerWithout(env.provider, without, BatchProblem(m, howmany, 1), r);
    hide Policy.Contains, Policy.IsSubsetOf, Policy.Minus, IsRoots, IsProvider, Enough, Smooth, Solves, Convolves, Convolving,
         Ready, Sound, KeepsFrom, KeepsKnown, RankOf, Lower, Remembered, Recalled, NoneUsable, TableHolds, TwidSolves, Stage1, Stage2, Divides, RaderTables, RaderSpectrum,
         ChirpSpectrum, Prime, Kernels, PrimeClosed, StripAll;
    var table := MakePlan(env, s, w, without, TableProblem(m));
    ghost var mid: memory := w.table;
    KeepsAbove(env.provider, before, mid, TableProblem(m), without, r);
    var fwd := MakePlan(env, s, w, without, BatchProblem(m, howmany, -1));
    ghost var late: memory := w.table;
    KeepsNext(env.provider, before, mid, late, BatchProblem(m, howmany, -1), without, r);
    var bwd := MakePlan(env, s, w, without, BatchProblem(m, howmany, 1));
    KeepsNext(env.provider, before, late, w.table, BatchProblem(m, howmany, 1), without, r);
    if table.None? || fwd.None? || bwd.None? { return None; }
    sub := Some(SubPlans(table.value, fwd.value, bwd.value));
  }

  lemma LowerWithout(v: Provider, without: Policy, q: Problem, r: Rank)
    requires !without.Contains(ALLOW_CONVOLUTIONS) && r.convolutions
    ensures Lower(RankOf(v, q, without), r)
  {
  }

  lemma ConvolvingRank<T>(env: Env<T>, policy: Policy, p: Problem)
    ensures RankOf(env.provider, p, policy).convolutions == Convolving(env, policy)
  {
  }

  method TryRader<T(!new)>(env: Env<T>, s: Scratch<T>, w: Wisdom, policy: Policy, p: Problem)
    returns (plan: Option<Plan<T>>)
    requires Ready(env, Convolving(env, policy), p.n) && Asked(p)
    requires s.Valid() && w.Valid() && Sound(env, w.table)
    modifies s, s.Free(), w
    ensures Planned(env, Convolving(env, policy), Feasible(env.provider.ns, Convolving(env, policy), RaderAlone, p), p, plan)
    ensures s.Kept() && s.rader == old(s.rader) && s.bluestein == old(s.bluestein)
    ensures w.Valid() && Sound(env, w.table)
    ensures plan.Some? ==> MadeBy(RaderAlone, p, plan.value)
    ensures KeepsFrom(env.provider, old(w.table), w.table, RankOf(env.provider, p, policy))
    decreases Convolving(env, policy), p.n, p.howmany > 1, 0, 0
  {
    hide Policy.Contains, Policy.IsSubsetOf, IsRoots, IsProvider, Enough, Smooth, Solves, Convolves, Convolving,
         Ready, Sound, KeepsFrom, KeepsKnown, RankOf, Lower, Remembered, Recalled, NoneUsable, TableHolds, TwidSolves, Stage1, Stage2, Divides, ConvolutionPlans, RaderTables, RaderSpectrum,
         ChirpSpectrum, Prime, Kernels, ConvolvedRadix, NoFactorBelow, Zero, DIRECT_LENGTHS, RADICES, PrimeClosed, StripAll;
    LengthSolvable(env, Convolving(env, policy), p);
    ConvolvingRank(env, policy, p);
    KeepsAll(env.provider, w.table, RankOf(env.provider, p, policy));
    plan := None;
    var n := p.n;
    if Convolving(env, policy) && n !in env.provider.ns && n > 2 {
      var f := SmallestPrimeFactor(n);
      if f == n {
        Shrink(env, true, n, false, n - 1);
        var sub := MakeSubPlans(env, s, w, policy, n - 1, p.howmany, RankOf(env.provider, p, policy));
        if sub.Some? {
          var perm, rev, bfft := PrepareRader(env.u, s, n, p.dir, sub.value.table);
          plan := Some(if p.howmany == 1
            then RaderSingle(n, p.istride, p.ostride, n - 1, sub.value.fwd, sub.value.bwd, perm, rev, bfft)
            else RaderBatch(p, n - 1, p.howmany, sub.value.fwd, sub.value.bwd, perm, rev, bfft));
          RaderSolves(env.u, plan.value, p);
        }
      }
    }
  }

  lemma ChirpLengths<T(!new)>(env: Env<T>, n: int, r: int, pad: int)
    requires Ready(env, true, n) && 0 < r <= n && 2 * r - 1 <= pad < 2 * (2 * r - 1)
    ensures Ready(env, false, pad) && Divides(2 * r, env.u.order)
  {
    Shrink(env, true, n, false, pad);
  }

  method TryBluestein<T(!new)>(env: Env<T>, s: Scratch<T>, w: Wisdom, policy: Policy, p: Problem)
    returns (plan: Option<Plan<T>>)
    requires Ready(env, Convolving(env, policy), p.n) && Asked(p)
    requires s.Valid() && w.Valid() && Sound(env, w.table)
    modifies s, s.Free(), w
    ensures Planned(env, Convolving(env, policy), Feasible(env.provider.ns, Convolving(env, policy), BluesteinAlone, p), p, plan)
    ensures s.Kept() && s.rader == old(s.rader) && s.bluestein == old(s.bluestein)
    ensures w.Valid() && Sound(env, w.table)
    ensures plan.Some? ==> MadeBy(BluesteinAlone, p, plan.value)
    ensures KeepsFrom(env.provider, old(w.table), w.table, RankOf(env.provider, p, policy))
    decreases Convolving(env, policy), p.n, p.howmany > 1, 0, 0
  {
    hide Policy.Contains, Policy.IsSubsetOf, IsRoots, IsProvider, Enough, Smooth, Solves, Convolves, Convolving,
         Ready, Sound, KeepsFrom, KeepsKnown, RankOf, Lower, Remembered, Recalled, NoneUsable, TableHolds, TwidSolves, Stage1, Stage2, Divides, ConvolutionPlans, RaderTables, RaderSpectrum,
         ChirpSpectrum, Prime, Kernels, ConvolvedRadix, NoFactorBelow, Zero, DIRECT_LENGTHS, RADICES, PrimeClosed, StripAll;
    LengthSolvable(env, Convolving(env, policy), p);
    ConvolvingRank(env, policy, p);
    KeepsAll(env.provider, w.table, RankOf(env.provider, p, policy));
    ReadyParts(env, Convolving(env, policy), p.n);
    plan := None;
    var n := p.n;
    if Convolving(env, policy) && n !in env.provider.ns && n > 2 {
      var f := SmallestPrimeFactor(n);
      if f == n {
        var pad := NextLengthFactorableBy(2 * n - 1, env.provider.ns);
        ChirpLengths(env, n, n, pad);
        var sub := MakeSubPlans(env, s, w, policy, pad, p.howmany, RankOf(env.provider, p, policy));
        var chirp, bfft := PrepareBluestein(env.u, s, n, p.dir, pad, sub.value.table);
        plan := Some(if p.howmany == 1
          then BluesteinSingle(n, p.istride, p.ostride, pad, sub.value.fwd, sub.value.bwd, chirp, bfft)
          else BluesteinBatch(p, pad, sub.value.fwd, sub.value.bwd, chirp, bfft));
        BluesteinSolves(env.u, plan.value, p);
      }
    }
  }

  /** The second stage by Rader's or, with a padded length, by Bluestein's algorithm. */
  method MakeConvolvedTwid<T(!new)>(env: Env<T>, s: Scratch<T>, tp: TwidProblem, rader: bool, pad: int, sub: SubPlans<T>)
    returns (t: Twid<T>)
    requires IsRoots(env.u) && TwidSolvable(env.u, tp) && s.Valid()
    requires Convolver(env.u, if rader then tp.n - 1 else pad, tp.howmany0, sub)
    requires if rader then Prime(tp.n) && tp.n > 2 else pad >= 2 * tp.n - 1 && Divides(2 * tp.n, env.u.order)
    modifies s, s.Free()
    ensures t.tp == tp && TwidSolves(env.u, t) && (if rader then t.RaderTwid? else t.BluesteinTwid? && t.pad == pad)
    ensures s.Kept() && s.rader == old(s.rader) && s.bluestein == old(s.bluestein)
  {
    hide IsRoots, Solves, Convolves, TableHolds, TwidSolves, Divides, ConvolutionPlans, RaderTables, RaderSpectrum,
         ChirpSpectrum, Prime;
    if rader {
      var table := PrepareTwiddles(env.u, tp, TableLayout(1, 1, true));
      var perm, rev, bfft := PrepareRader(env.u, s, tp.n, tp.dir, sub.table);
      t := RaderTwid(tp, tp.n - 1, table, sub.fwd, sub.bwd, perm, rev, bfft);
    } else {
      var table := PrepareTwiddles(env.u, tp, TableLayout(1, 1, false));
      var chirp, bfft := PrepareBluestein(env.u, s, tp.n, tp.dir, pad, sub.table);
      t := BluesteinTwid(tp, pad, table, sub.fwd, sub.bwd, chirp, bfft);
    }
    ConvolvedTwidSolves(env.u, t);
  }

  /** The smallest prime factor as radix, when there is no kernel for it. */
  method TryConvolvedRadix<T(!new)>(env: Env<T>, s: Scratch<T>, w: Wisdom, policy: Policy, st: Strategy, p: Problem)
    returns (plan: Option<Plan<T>>)
    requires Ready(env, Convolving(env, policy), p.n) && Asked(p) && ConvolvesRadix(st)
    requires s.Valid() && w.Valid() && Sound(env, w.table)
    modifies s, s.Free(), w
    ensures Planned(env, Convolving(env, policy), Feasible(env.provider.ns, Convolving(env, policy), st, p), p, plan)
    ensures s.Kept() && s.rader == old(s.rader) && s.bluestein == old(s.bluestein)
    ensures w.Valid() && Sound(env, w.table)
    ensures plan.Some? ==> MadeBy(st, p, plan.value)
    ensures KeepsFrom(env.provider, old(w.table), w.table, RankOf(env.provider, p, policy))
    decreases Convolving(env, policy), p.n, p.howmany > 1, 0, 0
  {
    hide Policy.Contains, Policy.IsSubsetOf, IsRoots, IsProvider, Enough, Smooth, Solves, Convolves, Convolving,
         Ready, Sound, KeepsFrom, KeepsKnown, RankOf, Lower, Remembered, Recalled, NoneUsable, TableHolds, TwidSolves, Stage1, Stage2, Divides, ConvolutionPlans, RaderTables, RaderSpectrum,
         ChirpSpectrum, Prime, DIRECT_LENGTHS, RADICES, NoFactorBelow, Zero, Feasible, FitsBatch, Kernels, PrimeClosed, Padded, PaddedStage, NextLength, MadeBy;
    LengthSolvable(env, Convolving(env, policy), p);
    ConvolvingRank(env, policy, p);
    KeepsAll(env.provider, w.table, RankOf(env.provider, p, policy));
    ReadyParts(env, Convolving(env, policy), p.n);
    plan := None;
    var n := p.n;
    if !Convolving(env, policy) || !FitsBatch(st, p) || n <= 2 {
      ConvolvedRadixInfeasible(env.provider.ns, Convolving(env, policy), st, p);
      return;
    }
    var r := SmallestPrimeFactor(n);
    ConvolvedRadixFeasible(env.provider.ns, Convolving(env, policy), st, p, r);
    if r == n || r in env.provider.ns { return; }
    ConvolvedRadixFacts(env, p, st, r);
    StageAsked(env.u, p, r);
    Shrink(env, true, n, true, n / r);
    var pad: int := 0;
    if ByRader(st) {
      Shrink(env, true, n, false, r - 1);
    } else {
      pad := NextLengthFactorableBy(2 * r - 1, env.provider.ns);
      ChirpLengths(env, n, r, pad);
    }
    ghost var before: memory, rank := w.table, RankOf(env.provider, p, policy);
    var sub := MakeSubPlans(env, s, w, policy, if ByRader(st) then r - 1 else pad, n / r, rank);
    if sub.None? { return; }
    ghost var mid: memory := w.table;
    LowerStage(env.provider, p, r, policy);
    var stage1 := MakePlan(env, s, w, policy, Stage1(p, r));
    KeepsNext(env.provider, before, mid, w.table, Stage1(p, r), policy, rank);
    var stage2 := MakeConvolvedTwid(env, s, Stage2(p, r), ByRader(st), pad, sub.value);
    plan := Some(CooleyTukeyPlan(n, p.howmany, stage1.value, stage2));
    StagesSolve(env.u, plan.value, p);
    StagePadded(env.provider.ns, n, r, pad, stage2);
    JoinPadded(env.provider.ns, plan.value);
    ConvolvedMade(st, p, plan.value);
  }

  lemma ConvolvedRadixFacts<T(!new)>(env: Env<T>, p: Problem, st: Strategy, r: int)
    requires IsProvider(env.provider) && Asked(p) && p.n > 2 && FitsBatch(st, p)
    requires LeastFactor(p.n, r) && Prime(r) && r != p.n && r !in env.provider.ns
    ensures 2 < r < p.n && Splits(p, r)
  {
    TwoOffered(env.provider);
    hide IsProvider, NoFactorBelow, FitsBatch, Asked, Prime, Zero;
    var q := ZeroElim(r, p.n);
    MulGrows(r, q);
  }

  lemma TwoOffered(v: Provider)
    requires IsProvider(v)
    ensures 2 in v.ns
  {
    hide DIRECT_LENGTHS, RADICES;
  }
}
