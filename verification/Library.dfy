/** Planning and executing a complex transform from start to finish. */
module Library {
  import opened Roots
  import opened Memory
  import opened Plans
  import opened ScratchMemory
  import opened Execution
  import opened Policies
  import opened WisdomTable
  import opened Planner
  import opened Strategies
  import opened Recalling

  /** Every floating-point complex transform is planned, and its plan computes the textbook
      sums at exactly the addressed elements, in place included.
   */
  method ComputeTransform<T(!new)>(env: Env<T>, s: Scratch<T>, w: Wisdom, wantSme: bool, timeLimited: bool, p: Problem,
                                   x: array<T>, xo: int, y: array<T>, yo: int)
    requires env.provider.floating && Ready(env, true, p.n) && Asked(p)
    requires s.Valid() && w.Valid() && Sound(env, w.table)
    requires Room(p, p.In(xo), x.Length, p.Out(yo), y.Length)
    requires x == y ==> SameAddresses(p.In(xo), p.Out(yo), p.howmany, p.n)
    requires {x, y} !! s.Free() + {s.rader, s.bluestein}
    modifies s, s.Free(), w, y, s.rader, s.bluestein
    ensures Solved(env.u, p, old(x[..]), p.In(xo), y[..], p.Out(yo))
    ensures OnlyTouched(p.Out(yo), p.howmany, p.n, old(y[..]), y[..])
    ensures s.Kept() && w.Valid() && Sound(env, w.table)
  {
    hide Policy.Contains, Layout.At, Solves, Convolves, Within, Separate, SameAddresses, Solved, OnlyTouched, Sound, Ready;
    var policy := FromOptions(wantSme, timeLimited);
    OptionsAllowConvolutions(wantSme, timeLimited);
    ghost var xs, ys := x[..], y[..];
    var plan := MakePlan(env, s, w, policy, p);
    assert IsRoots(env.u) by { ReadyParts(env, true, p.n); }
    hide IsRoots;
    assert x[..] == xs && y[..] == ys;
    Execute(env.u, s, plan.value, p, x, xo, y, yo);
  }

  /** Planning a problem again under the same policy gives a plan by the same strategy, once the memory
      knows it: after the first search, or if it did before.
   */
  method PlanTwice<T(!new)>(env: Env<T>, s: Scratch<T>, w: Wisdom, policy: Policy, p: Problem)
    returns (first: Option<Plan<T>>, second: Option<Plan<T>>)
    requires Ready(env, Convolving(env, policy), p.n) && Asked(p)
    requires s.Valid() && w.Valid() && Sound(env, w.table)
    modifies s, s.Free(), w
    ensures first.Some? <==> second.Some?
    ensures first.Some? && (Known(old(w.table), p, policy) || NoneUsable(EntriesOf(old(w.table), p), policy)) ==>
              exists st :: MadeBy(st, p, first.value) && MadeBy(st, p, second.value)
  {
    hide Policy.Contains, Policy.IsSubsetOf, Sound, Ready, Asked, KeepsKnown, Remembered, Recalled, NoneUsable, Makes, MadeBy, Solves, Convolves,
         Convolving, Plannable, Maximal, Usable, Known, EntriesOf;
    ghost var before: memory := w.table;
    first := MakePlan(env, s, w, policy, p);
    ghost var mid: memory := w.table;
    second := MakePlan(env, s, w, policy, p);
    if first.Some? && (Known(before, p, policy) || NoneUsable(EntriesOf(before, p), policy)) {
      ghost var e := KnownMaker(env.provider, before, mid, policy, p, first.value);
      SecondMaker(env.provider, mid, policy, p, second.value, e);
      SameMaker(env.provider, e, p, first.value, second.value);
    }
  }

  /** The entry that made the first plan is in the memory. */
  lemma KnownMaker<T>(v: Provider, a: memory, b: memory, policy: Policy, p: Problem, plan: Plan<T>) returns (e: Entry)
    requires KeepsKnown(v, a, b, p, policy)
    requires NoneUsable(EntriesOf(a, p), policy) ==> Remembered(v, b, p, policy, plan)
    requires !NoneUsable(EntriesOf(a, p), policy) ==> Recalled(v, EntriesOf(a, p), policy, p, plan)
    requires Known(a, p, policy) || NoneUsable(EntriesOf(a, p), policy)
    ensures e in EntriesOf(b, p) && e.policy == policy && Makes(v, e, p, plan)
  {
    hide Makes, NoneUsable, Maximal, EntriesOf;
    if NoneUsable(EntriesOf(a, p), policy) {
      e :| e in EntriesOf(b, p) && e.policy == policy && Makes(v, e, p, plan);
    } else {
      e :| e in EntriesOf(a, p) && e.policy == policy;
      assert SameFor(a, b, p, policy);
    }
  }

  lemma SecondMaker<T>(v: Provider, t: memory, policy: Policy, p: Problem, plan: Plan<T>, e: Entry)
    requires e in EntriesOf(t, p) && e.policy == policy
    requires !NoneUsable(EntriesOf(t, p), policy) ==> Recalled(v, EntriesOf(t, p), policy, p, plan)
    ensures Makes(v, e, p, plan)
  {
    hide Makes, Maximal;
    if NoneUsable(EntriesOf(t, p), policy) { UnusableUnknown(t, p, policy); }
  }
}
