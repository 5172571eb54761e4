/** Sets of planner options, kept as the bits of a mask. */
module Policies {

  datatype Policy = Policy(mask: bv32) {
    predicate Contains(x: Policy) { mask & x.mask == x.mask }

    predicate IsSubsetOf(x: Policy) { mask & x.mask == mask }

    function Minus(x: Policy): Policy { Policy(mask & !x.mask) }

    function Plus(x: Policy): Policy { Policy(mask | x.mask) }
  }

  const ALLOW_CONVOLUTIONS := Policy(1)
  const ALLOW_PRUNING := Policy(4)
  const ALLOW_SME := Policy(16)
  const ALLOW_SME2 := Policy(32)
  const ALLOW_ALL := ALLOW_CONVOLUTIONS.Plus(ALLOW_SME).Plus(ALLOW_PRUNING).Plus(ALLOW_SME2)

  /** The initial policy for the public options. */
  function FromOptions(wantSme: bool, timeLimited: bool): Policy {
    var all := if wantSme then ALLOW_ALL else ALLOW_ALL.Minus(ALLOW_SME).Minus(ALLOW_SME2);
    if timeLimited then all.Minus(ALLOW_PRUNING) else all
  }

  /** Every public option set allows convolutions. */
  lemma OptionsAllowConvolutions(wantSme: bool, timeLimited: bool)
    ensures FromOptions(wantSme, timeLimited).Contains(ALLOW_CONVOLUTIONS)
    ensures FromOptions(wantSme, timeLimited).Contains(ALLOW_PRUNING) <==> !timeLimited
    ensures FromOptions(wantSme, timeLimited).Contains(ALLOW_SME) <==> wantSme
  {
  }

  // ----- the subset order

  lemma SubsetOrder(a: Policy, b: Policy, c: Policy)
    ensures a.IsSubsetOf(a)
    ensures a.IsSubsetOf(b) && b.IsSubsetOf(c) ==> a.IsSubsetOf(c)
    ensures a.IsSubsetOf(b) && b.IsSubsetOf(a) ==> a == b
    ensures a.IsSubsetOf(b) <==> b.Contains(a)
  {
  }

  /** Members of a subset are members of the set. */
  lemma SubsetContains(a: Policy, b: Policy, x: Policy)
    requires a.IsSubsetOf(b) && a.Contains(x)
    ensures b.Contains(x)
  {
  }

  /** Removal removes what was asked. */
  lemma MinusRemoves(a: Policy, x: Policy)
    requires x.mask != 0
    ensures !a.Minus(x).Contains(x) && a.Minus(x).IsSubsetOf(a)
  {
  }
}
