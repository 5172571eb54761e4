/** The planner's memory of strategies that worked, shared between policies. */
module WisdomTable {
  import opened Plans
  import opened Policies

  datatype Option<T> = None | Some(value: T)

  datatype Entry = Entry(strategy: nat, policy: Policy)

  /** At most one entry a policy. */
  ghost predicate OnePerPolicy(es: seq<Entry>) {
    forall i, j :: 0 <= i < j < |es| ==> es[i].policy != es[j].policy
  }

  predicate Usable(requested: Policy, e: Entry) { e.policy.IsSubsetOf(requested) }

  /** best is usable, and no usable entry has a strictly larger policy. */
  ghost predicate Maximal(es: seq<Entry>, requested: Policy, best: Entry) {
    && best in es && Usable(requested, best)
    && forall i :: 0 <= i < |es| && Usable(requested, es[i]) && best.policy.IsSubsetOf(es[i].policy) ==>
         es[i].policy == best.policy
  }

  /** The entries after an update: the one with the same policy replaced, or e appended. */
  function Updated(es: seq<Entry>, e: Entry): seq<Entry> {
    if es == [] then [e]
    else if es[0].policy == e.policy then [e] + es[1..]
    else [es[0]] + Updated(es[1..], e)
  }

  class Wisdom {
    var table: map<Problem, seq<Entry>>

    ghost predicate Valid()
      reads this
    {
      forall p :: p in table ==> OnePerPolicy(table[p])
    }

    constructor ()
      ensures Valid() && table == map[]
    {
      table := map[];
    }

    function Entries(p: Problem): seq<Entry>
      reads this
    {
      if p in table then table[p] else []
    }

    method Lookup(p: Problem, requested: Policy) returns (best: Option<Entry>)
      requires Valid()
      ensures best.None? ==> forall i :: 0 <= i < |Entries(p)| ==> !Usable(requested, Entries(p)[i])
      ensures best.Some? ==> Maximal(Entries(p), requested, best.value)
      ensures forall i :: 0 <= i < |Entries(p)| && Entries(p)[i].policy == requested ==> best == Some(Entries(p)[i])
    {
      best := None;
      if p !in table { return; }
      var es := table[p];
      for i := 0 to |es|
        invariant best.None? ==> forall j :: 0 <= j < i ==> !Usable(requested, es[j])
        invariant best.Some? ==> Maximal(es[..i], requested, best.value)
        invariant best.Some? ==> best.value in es
      {
        assert es[..i + 1] == es[..i] + [es[i]];
        if Usable(requested, es[i]) && (best.None? || best.value.policy.IsSubsetOf(es[i].policy)) {
          ReplaceBest(es[..i], requested, best, es[i]);
          best := Some(es[i]);
        } else if best.Some? {
          KeepBest(es[..i], requested, best.value, es[i]);
        }
      }
      assert es[..|es|] == es;
      forall i | 0 <= i < |es| && es[i].policy == requested ensures best == Some(es[i]) {
        SubsetOrder(requested, requested, requested);
        ExactIsBest(es, requested, best.value, i);
      }
    }

    method Update(p: Problem, e: Entry)
      requires Valid()
      modifies this
      ensures Valid() && table == old(table)[p := Updated(old(Entries(p)), e)]
    {
      var es := if p in table then table[p] else [];
      UpdatedOnePerPolicy(es, e);
      es := Place(es, e);
      hide Updated, OnePerPolicy;
      table := table[p := es];
    }
  }

  /** Overwrites the entry with the same policy, or appends. */
  method Place(es: seq<Entry>, e: Entry) returns (updated: seq<Entry>)
    ensures updated == Updated(es, e)
  {
    var i := 0;
    while i < |es| && es[i].policy != e.policy
      invariant i <= |es| && forall j :: 0 <= j < i ==> es[j].policy != e.policy
    {
      i := i + 1;
    }
    UpdatedAt(es, e, i);
    hide Updated;
    updated := if i < |es| then es[i := e] else es + [e];
  }

  lemma ReplaceBest(es: seq<Entry>, requested: Policy, best: Option<Entry>, e: Entry)
    requires Usable(requested, e)
    requires best.None? ==> forall j :: 0 <= j < |es| ==> !Usable(requested, es[j])
    requires best.Some? ==> Maximal(es, requested, best.value) && best.value.policy.IsSubsetOf(e.policy)
    ensures Maximal(es + [e], requested, e)
  {
    assert (es + [e])[|es|] == e;
    forall i | 0 <= i < |es + [e]| && Usable(requested, (es + [e])[i]) && e.policy.IsSubsetOf((es + [e])[i].policy)
      ensures (es + [e])[i].policy == e.policy
    {
      if i < |es| {
        SubsetOrder(best.value.policy, e.policy, es[i].policy);
        SubsetOrder(es[i].policy, e.policy, e.policy);
      }
    }
  }

  lemma KeepBest(es: seq<Entry>, requested: Policy, best: Entry, e: Entry)
    requires Maximal(es, requested, best)
    requires !(Usable(requested, e) && best.policy.IsSubsetOf(e.policy))
    ensures Maximal(es + [e], requested, best)
  {
    var i :| 0 <= i < |es| && es[i] == best;
    assert (es + [e])[i] == best;
  }

  /** The entry of the requested policy itself is the maximal one. */
  lemma ExactIsBest(es: seq<Entry>, requested: Policy, best: Entry, i: nat)
    requires OnePerPolicy(es) && i < |es| && es[i].policy == requested && Maximal(es, requested, best)
    ensures best == es[i]
  {
    SubsetOrder(requested, requested, requested);
    var j :| 0 <= j < |es| && es[j] == best;
    assert es[i].policy == best.policy;
  }

  lemma {:induction false} UpdatedAt(es: seq<Entry>, e: Entry, i: nat)
    requires i <= |es| && (forall j :: 0 <= j < i ==> es[j].policy != e.policy) && (i < |es| ==> es[i].policy == e.policy)
    ensures Updated(es, e) == if i < |es| then es[i := e] else es + [e]
  {
    if i > 0 {
      UpdatedAt(es[1..], e, i - 1);
    }
  }

  lemma {:induction false} UpdatedOnePerPolicy(es: seq<Entry>, e: Entry)
    requires OnePerPolicy(es)
    ensures OnePerPolicy(Updated(es, e)) && e in Updated(es, e)
    ensures forall x :: x in Updated(es, e) <==> x == e || (x in es && x.policy != e.policy)
  {
    if es != [] && es[0].policy != e.policy {
      UpdatedOnePerPolicy(es[1..], e);
      assert es == [es[0]] + es[1..];
      forall i | 0 <= i < |Updated(es[1..], e)| ensures Updated(es[1..], e)[i].policy != es[0].policy {
        assert Updated(es[1..], e)[i] in Updated(es[1..], e);
      }
    } else if es != [] {
      assert es == [es[0]] + es[1..];
      assert ([e] + es[1..])[0] == e;
    }
  }
}
