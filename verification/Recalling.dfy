/** What the planner's memory holds after planning: the strategy that made the plan, and all that was
    known before.
 */
module Recalling {
  import opened Plans
  import opened Policies
  import opened WisdomTable
  import opened Strategies

  type memory = map<Problem, seq<Entry>>

  function EntriesOf(t: memory, q: Problem): seq<Entry> { if q in t then t[q] else [] }

  /** The entry's strategy makes this plan of p. */
  ghost predicate Makes<T>(v: Provider, e: Entry, p: Problem, plan: Plan<T>) {
    e.strategy < |Table(v.floating)| && Table(v.floating)[e.strategy].Some? && MadeBy(Table(v.floating)[e.strategy].value, p, plan)
  }

  /** The memory holds the strategy that made the plan under this policy. */
  ghost predicate Remembered<T>(v: Provider, t: memory, p: Problem, policy: Policy, plan: Plan<T>) {
    exists e :: e in EntriesOf(t, p) && e.policy == policy && Makes(v, e, p, plan)
  }

  /** A maximal usable entry made the plan, and it is the policy's own if there is one. */
  ghost predicate Recalled<T>(v: Provider, es: seq<Entry>, policy: Policy, p: Problem, plan: Plan<T>) {
    && (exists e :: Maximal(es, policy, e) && Makes(v, e, p, plan))
    && forall e :: e in es && e.policy == policy ==> Makes(v, e, p, plan)
  }

  ghost predicate NoneUsable(es: seq<Entry>, policy: Policy) { forall i :: 0 <= i < |es| ==> !Usable(policy, es[i]) }

  // ----- what nested planning leaves alone

  /** The order in which planning descends: convolutions are given up, lengths shrink, batches are peeled. */
  datatype Rank = Rank(convolutions: bool, n: int, batch: bool)

  function RankOf(v: Provider, q: Problem, policy: Policy): Rank {
    Rank(v.floating && policy.Contains(ALLOW_CONVOLUTIONS), q.n, q.howmany > 1)
  }

  predicate Lower(a: Rank, b: Rank) {
    (!a.convolutions && b.convolutions)
    || (a.convolutions == b.convolutions && (a.n < b.n || (a.n == b.n && !a.batch && b.batch)))
  }

  /** The same entries of a problem for a policy. */
  ghost predicate SameFor(a: memory, b: memory, q: Problem, policy: Policy) {
    forall e: Entry :: e.policy == policy ==> (e in EntriesOf(a, q) <==> e in EntriesOf(b, q))
  }

  /** Only entries below a rank change. */
  ghost predicate KeepsFrom(v: Provider, a: memory, b: memory, r: Rank) {
    forall q, policy {:trigger SameFor(a, b, q, policy)} :: !Lower(RankOf(v, q, policy), r) ==> SameFor(a, b, q, policy)
  }

  ghost predicate Known(t: memory, p: Problem, policy: Policy) { exists e :: e in EntriesOf(t, p) && e.policy == policy }

  /** Planning p adds its own entry at most, and below it whatever nested planning adds. */
  ghost predicate KeepsKnown(v: Provider, a: memory, b: memory, p: Problem, policy: Policy) {
    forall q, other {:trigger SameFor(a, b, q, other)} ::
      !Lower(RankOf(v, q, other), RankOf(v, p, policy)) && (q != p || other != policy || Known(a, p, policy)) ==> SameFor(a, b, q, other)
  }

  lemma KeepsAll(v: Provider, a: memory, r: Rank)
    ensures KeepsFrom(v, a, a, r)
  {
  }

  lemma KeepsBoth(v: Provider, a: memory, b: memory, c: memory, r: Rank)
    requires KeepsFrom(v, a, b, r) && KeepsFrom(v, b, c, r)
    ensures KeepsFrom(v, a, c, r)
  {
    hide RankOf, Lower;
    forall q, policy | !Lower(RankOf(v, q, policy), r) ensures SameFor(a, c, q, policy) {
      assert SameFor(a, b, q, policy) && SameFor(b, c, q, policy);
    }
  }

  /** Planning something lower. */
  lemma KeepsAbove(v: Provider, a: memory, b: memory, p: Problem, policy: Policy, r: Rank)
    requires KeepsKnown(v, a, b, p, policy) && Lower(RankOf(v, p, policy), r)
    ensures KeepsFrom(v, a, b, r)
  {
    hide SameFor;
    forall q, other | !Lower(RankOf(v, q, other), r) ensures SameFor(a, b, q, other) {
      assert !Lower(RankOf(v, q, other), RankOf(v, p, policy));
    }
  }

  /** One more planning step of something lower. */
  lemma KeepsNext(v: Provider, a: memory, b: memory, c: memory, p: Problem, policy: Policy, r: Rank)
    requires KeepsFrom(v, a, b, r) && KeepsKnown(v, b, c, p, policy) && Lower(RankOf(v, p, policy), r)
    ensures KeepsFrom(v, a, c, r)
  {
    hide KeepsFrom, KeepsKnown, RankOf, Lower;
    KeepsAbove(v, b, c, p, policy, r);
    KeepsBoth(v, a, b, c, r);
  }

  /** A strategy tried under a policy that is no larger keeps what planning must keep. */
  lemma RecallKeeps(v: Provider, a: memory, b: memory, p: Problem, saved: Policy, policy: Policy)
    requires KeepsFrom(v, a, b, RankOf(v, p, saved)) && saved.IsSubsetOf(policy)
    ensures KeepsKnown(v, a, b, p, policy)
  {
    if saved.Contains(ALLOW_CONVOLUTIONS) { SubsetContains(saved, policy, ALLOW_CONVOLUTIONS); }
    hide SameFor, Policy.Contains;
  }

  /** Storing the entry of p under a policy that was not known. */
  lemma UpdateKeeps(v: Provider, a: memory, b: memory, p: Problem, e: Entry)
    requires KeepsFrom(v, a, b, RankOf(v, p, e.policy)) && !Known(a, p, e.policy) && OnePerPolicy(EntriesOf(b, p))
    ensures KeepsKnown(v, a, b[p := Updated(EntriesOf(b, p), e)], p, e.policy)
    ensures e in Updated(EntriesOf(b, p), e)
  {
    UpdatedOnePerPolicy(EntriesOf(b, p), e);
    var c: memory := b[p := Updated(EntriesOf(b, p), e)];
    hide Updated, OnePerPolicy, RankOf, Lower;
    forall q, other | !Lower(RankOf(v, q, other), RankOf(v, p, e.policy)) && (q != p || other != e.policy) ensures SameFor(a, c, q, other) {
      assert SameFor(a, b, q, other);
      assert q != p ==> EntriesOf(c, q) == EntriesOf(b, q);
      assert EntriesOf(c, p) == Updated(EntriesOf(b, p), e);
    }
  }

  lemma UnusableUnknown(t: memory, p: Problem, policy: Policy)
    requires NoneUsable(EntriesOf(t, p), policy)
    ensures !Known(t, p, policy)
  {
    SubsetOrder(policy, policy, policy);
    hide Policy.IsSubsetOf;
  }

  /** Entries made by one strategy: what is remembered of a plan is what made it. */
  lemma SameMaker<T>(v: Provider, e: Entry, p: Problem, first: Plan<T>, second: Plan<T>)
    requires Makes(v, e, p, first) && Makes(v, e, p, second)
    ensures exists st :: MadeBy(st, p, first) && MadeBy(st, p, second)
  {
    hide Table, MadeBy;
    var st := Table(v.floating)[e.strategy].value;
    assert MadeBy(st, p, first) && MadeBy(st, p, second);
  }
}
