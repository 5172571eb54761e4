/** The backward iteration that finds which registers are live at block boundaries. */
module Liveness {
  import opened Integers

  /** A register of a register space; ids above the physical ones are virtual. */
  datatype Reg = Reg(space: int, id: int)

  datatype Instr = Instr(uses: set<Reg>, defs: set<Reg>, clobbers: set<Reg>)

  datatype Block = Block(code: seq<Instr>, succ: seq<nat>)

  /** Registers that are always, or never, considered live. */
  datatype Special = Special(always: set<Reg>, never: set<Reg>) {
    function Adjust(live: set<Reg>): set<Reg> { live + always - never }
  }

  /** The registers live before an instruction, from those live after it. */
  function Before(x: Special, i: Instr, live: set<Reg>): set<Reg> {
    x.Adjust(live - i.defs + i.clobbers) - i.clobbers + i.uses
  }

  /** The registers live before position k of the code, from those live at its end. */
  function LiveAt(x: Special, code: seq<Instr>, out: set<Reg>, k: nat): set<Reg>
    requires k <= |code|
    decreases |code| - k
  {
    if k == |code| then out else Before(x, code[k], LiveAt(x, code, out, k + 1))
  }

  function Transfer(x: Special, code: seq<Instr>, out: set<Reg>): set<Reg> { x.Adjust(LiveAt(x, code, out, 0)) }

  /** A function body: blocks, the registers it receives, and those it returns. */
  datatype Program = Program(special: Special, blocks: seq<Block>, inputs: set<Reg>, outputs: set<Reg>)

  predicate Returns(b: Block) { b.succ == [] }

  ghost predicate WellFormed(p: Program) {
    p.blocks != [] && forall b, i :: 0 <= b < |p.blocks| && 0 <= i < |p.blocks[b].succ| ==> p.blocks[b].succ[i] < |p.blocks|
  }

  function SeedIn(p: Program, b: int): set<Reg> { if b == 0 then p.inputs else {} }

  function SeedOut(p: Program, b: int): set<Reg>
    requires 0 <= b < |p.blocks|
  {
    if Returns(p.blocks[b]) then p.outputs else {}
  }

  /** The input sets of successors flow into the outputs of block b. */
  ghost predicate Flows(p: Program, ins: seq<set<Reg>>, outs: seq<set<Reg>>, b: int)
    requires WellFormed(p) && |ins| == |outs| == |p.blocks| && 0 <= b < |p.blocks|
  {
    forall i :: 0 <= i < |p.blocks[b].succ| ==> ins[p.blocks[b].succ[i]] <= outs[b]
  }

  ghost predicate Transferred(p: Program, ins: seq<set<Reg>>, outs: seq<set<Reg>>, b: int)
    requires |ins| == |outs| == |p.blocks| && 0 <= b < |p.blocks|
  {
    SeedIn(p, b) + Transfer(p.special, p.blocks[b].code, outs[b]) <= ins[b]
  }

  /** The liveness equations, as inclusions above the seeds. */
  ghost predicate Solution(p: Program, ins: seq<set<Reg>>, outs: seq<set<Reg>>)
    requires WellFormed(p)
  {
    && |ins| == |outs| == |p.blocks|
    && forall b :: 0 <= b < |p.blocks| ==> SeedOut(p, b) <= outs[b] && Flows(p, ins, outs, b) && Transferred(p, ins, outs, b)
  }

  ghost predicate Under(ins: seq<set<Reg>>, outs: seq<set<Reg>>, ins': seq<set<Reg>>, outs': seq<set<Reg>>) {
    && |ins| == |outs| == |ins'| == |outs'|
    && forall b :: 0 <= b < |ins| ==> ins[b] <= ins'[b] && outs[b] <= outs'[b]
  }

  ghost predicate Least(p: Program, ins: seq<set<Reg>>, outs: seq<set<Reg>>)
    requires WellFormed(p)
  {
    forall ins', outs' :: Solution(p, ins', outs') ==> Under(ins, outs, ins', outs')
  }

  // ----- monotonicity

  lemma BeforeMonotone(x: Special, i: Instr, a: set<Reg>, b: set<Reg>)
    requires a <= b
    ensures Before(x, i, a) <= Before(x, i, b)
  {
  }

  lemma {:induction false} LiveMonotone(x: Special, code: seq<Instr>, a: set<Reg>, b: set<Reg>, k: nat)
    requires a <= b && k <= |code|
    ensures LiveAt(x, code, a, k) <= LiveAt(x, code, b, k)
    decreases |code| - k
  {
    if k < |code| {
      LiveMonotone(x, code, a, b, k + 1);
      BeforeMonotone(x, code[k], LiveAt(x, code, a, k + 1), LiveAt(x, code, b, k + 1));
    }
  }

  lemma TransferMonotone(x: Special, code: seq<Instr>, a: set<Reg>, b: set<Reg>)
    requires a <= b
    ensures Transfer(x, code, a) <= Transfer(x, code, b)
  {
    LiveMonotone(x, code, a, b, 0);
  }

  // ----- the finite universe

  function Registers(code: seq<Instr>): set<Reg> {
    if code == [] then {} else code[0].uses + Registers(code[1..])
  }

  function Universe(p: Program, n: nat): set<Reg>
    requires n <= |p.blocks|
  {
    if n == 0 then p.inputs + p.outputs + p.special.always
    else Universe(p, n - 1) + Registers(p.blocks[n - 1].code)
  }

  lemma {:induction false} UsesIn(code: seq<Instr>, k: nat)
    requires k < |code|
    ensures code[k].uses <= Registers(code)
  {
    if k > 0 { UsesIn(code[1..], k - 1); }
  }

  lemma {:induction false} UniverseGrows(p: Program, b: nat, n: nat)
    requires b < n <= |p.blocks|
    ensures Registers(p.blocks[b].code) <= Universe(p, n)
    ensures p.inputs + p.outputs + p.special.always <= Universe(p, n)
    decreases n
  {
    if b < n - 1 { UniverseGrows(p, b, n - 1); } else { UniverseSeeds(p, n); }
  }

  lemma {:induction false} UniverseSeeds(p: Program, n: nat)
    requires n <= |p.blocks|
    ensures p.inputs + p.outputs + p.special.always <= Universe(p, n)
  {
    if n > 0 { UniverseSeeds(p, n - 1); }
  }

  lemma {:induction false} LiveStaysInside(x: Special, code: seq<Instr>, out: set<Reg>, k: nat, u: set<Reg>)
    requires k <= |code| && out <= u && x.always <= u && Registers(code) <= u
    ensures LiveAt(x, code, out, k) <= u
    decreases |code| - k
  {
    if k < |code| {
      LiveStaysInside(x, code, out, k + 1, u);
      UsesIn(code, k);
    }
  }

  /** The registers of the universe that are still missing from the input sets. */
  function Missing(ins: seq<set<Reg>>, u: set<Reg>): nat {
    if ins == [] then 0 else |u - ins[0]| + Missing(ins[1..], u)
  }

  lemma {:induction false} MissingShrinks(ins: seq<set<Reg>>, b: nat, s: set<Reg>, u: set<Reg>)
    requires b < |ins| && ins[b] <= s <= u
    ensures Missing(ins[b := s], u) <= Missing(ins, u)
    ensures ins[b] != s ==> Missing(ins[b := s], u) < Missing(ins, u)
  {
    if b == 0 {
      assert ins[b := s][1..] == ins[1..];
      assert u - s <= u - ins[0];
      SubsetCount(u - s, u - ins[0]);
      if ins[0] != s {
        assert u - s != u - ins[0] by {
          var r :| r in s && r !in ins[0];
          assert r in u - ins[0] && r !in u - s;
        }
      }
    } else {
      assert ins[b := s][1..] == ins[1..][b - 1 := s];
      MissingShrinks(ins[1..], b - 1, s, u);
    }
  }

  lemma SubsetCount<T>(a: set<T>, b: set<T>)
    requires a <= b
    ensures |a| <= |b| && (a != b ==> |a| < |b|)
  {
    assert b == a + (b - a);
    if a != b {
      var x :| x in b - a;
    }
  }

  ghost predicate Inside(ins: seq<set<Reg>>, outs: seq<set<Reg>>, u: set<Reg>) {
    |ins| == |outs| && forall b :: 0 <= b < |ins| ==> ins[b] <= u && outs[b] <= u
  }

  // ----- the iteration

  /** What the iteration never loses: seeds are included, nothing exceeds the least solution,
      and everything stays in the universe.
   */
  ghost predicate Iterate(p: Program, ins: seq<set<Reg>>, outs: seq<set<Reg>>)
    requires WellFormed(p)
  {
    && |ins| == |outs| == |p.blocks| && Least(p, ins, outs)
    && forall b :: 0 <= b < |p.blocks| ==>
         && SeedIn(p, b) <= ins[b] && SeedOut(p, b) <= outs[b]
         && ins[b] <= Universe(p, |p.blocks|) && outs[b] <= Universe(p, |p.blocks|)
  }

  /** The outputs of block b after collecting the inputs of its successors. */
  method CollectOutputs(p: Program, ins: seq<set<Reg>>, outs: seq<set<Reg>>, b: nat) returns (out: set<Reg>)
    requires WellFormed(p) && b < |p.blocks| && Iterate(p, ins, outs)
    ensures outs[b] <= out && forall i :: 0 <= i < |p.blocks[b].succ| ==> ins[p.blocks[b].succ[i]] <= out
    ensures Iterate(p, ins, outs[b := out])
  {
    out := outs[b];
    var succ := p.blocks[b].succ;
    for i := 0 to |succ|
      invariant outs[b] <= out && forall j :: 0 <= j < i ==> ins[succ[j]] <= out
      invariant Iterate(p, ins, outs[b := out])
    {
      ghost var before := outs[b := out];
      out := out + ins[succ[i]];
      forall ins', outs' | Solution(p, ins', outs') ensures Under(ins, outs[b := out], ins', outs') {
        assert Under(ins, before, ins', outs');
        assert Flows(p, ins', outs', b);
      }
    }
  }

  /** Runs the block backwards from its outputs into its inputs. */
  method RunBackwards(x: Special, code: seq<Instr>, out: set<Reg>) returns (live: set<Reg>)
    ensures live == Transfer(x, code, out)
  {
    live := out;
    var k := |code|;
    while k > 0
      invariant 0 <= k <= |code| && live == LiveAt(x, code, out, k)
    {
      k := k - 1;
      live := x.Adjust(live - code[k].defs + code[k].clobbers) - code[k].clobbers + code[k].uses;
    }
    live := x.Adjust(live);
  }

  /** Adds what a block needs to its inputs. */
  method UpdateInputs(p: Program, ins: seq<set<Reg>>, outs: seq<set<Reg>>, b: nat) returns (newIns: seq<set<Reg>>)
    requires WellFormed(p) && b < |p.blocks| && Iterate(p, ins, outs)
    ensures |newIns| == |ins| && newIns == ins[b := newIns[b]] && ins[b] <= newIns[b]
    ensures Iterate(p, newIns, outs) && Transferred(p, newIns, outs, b)
    ensures Missing(newIns, Universe(p, |p.blocks|)) <= Missing(ins, Universe(p, |p.blocks|))
    ensures newIns != ins ==> Missing(newIns, Universe(p, |p.blocks|)) < Missing(ins, Universe(p, |p.blocks|))
  {
    var live := RunBackwards(p.special, p.blocks[b].code, outs[b]);
    var u := Universe(p, |p.blocks|);
    UniverseGrows(p, b, |p.blocks|);
    LiveStaysInside(p.special, p.blocks[b].code, outs[b], 0, u);
    newIns := ins[b := ins[b] + live];
    MissingShrinks(ins, b, ins[b] + live, u);
    forall ins', outs' | Solution(p, ins', outs') ensures Under(newIns, outs, ins', outs') {
      assert Under(ins, outs, ins', outs');
      assert Transferred(p, ins', outs', b);
      TransferMonotone(p.special, p.blocks[b].code, outs[b], outs'[b]);
    }
  }

  /** Changing the sets of block b leaves the other blocks' equations alone. */
  lemma OtherBlocks(p: Program, ins: seq<set<Reg>>, outs: seq<set<Reg>>, newIns: seq<set<Reg>>, newOuts: seq<set<Reg>>, b: nat)
    requires |ins| == |outs| == |newIns| == |newOuts| == |p.blocks| && b < |p.blocks|
    requires newIns == ins[b := newIns[b]] && newOuts == outs[b := newOuts[b]]
    ensures forall c :: 0 <= c < |p.blocks| && c != b && Transferred(p, ins, outs, c) ==> Transferred(p, newIns, newOuts, c)
  {
  }

  /** Outputs of one block grow: the flow equations of the others still hold. */
  lemma OtherFlows(p: Program, ins: seq<set<Reg>>, outs: seq<set<Reg>>, b: nat, newOuts: seq<set<Reg>>)
    requires WellFormed(p) && |ins| == |outs| == |p.blocks| && b < |p.blocks|
    requires |newOuts| == |outs| && newOuts == outs[b := newOuts[b]]
    requires forall i :: 0 <= i < |p.blocks[b].succ| ==> ins[p.blocks[b].succ[i]] <= newOuts[b]
    requires forall c :: b < c < |p.blocks| ==> Flows(p, ins, outs, c)
    ensures forall c :: b <= c < |p.blocks| ==> Flows(p, ins, newOuts, c)
  {
    forall c | b <= c < |p.blocks| ensures Flows(p, ins, newOuts, c) {
      if c > b { assert Flows(p, ins, outs, c); }
    }
  }

  /** The first pass visits every block unconditionally, later ones only where outputs grew. */
  method SolveLiveness(p: Program) returns (ins: seq<set<Reg>>, outs: seq<set<Reg>>)
    requires WellFormed(p)
    ensures Solution(p, ins, outs) && Least(p, ins, outs) && Inside(ins, outs, Universe(p, |p.blocks|))
  {
    hide Iterate, Transferred, Flows, Least, Universe, Missing, Inside;
    var n := |p.blocks|;
    ins, outs := Seeds(p);
    var b := n;
    while b > 0
      invariant 0 <= b <= n && |ins| == |outs| == n && Iterate(p, ins, outs)
      invariant forall c :: b <= c < n ==> Transferred(p, ins, outs, c)
    {
      b := b - 1;
      var out := CollectOutputs(p, ins, outs, b);
      ghost var oldIns, oldOuts := ins, outs;
      outs := outs[b := out];
      ins := UpdateInputs(p, ins, outs, b);
      OtherBlocks(p, oldIns, oldOuts, ins, outs, b);
    }
    var changed := true;
    while changed
      invariant |ins| == |outs| == n && Iterate(p, ins, outs)
      invariant forall c :: 0 <= c < n ==> Transferred(p, ins, outs, c)
      invariant !changed ==> forall c :: 0 <= c < n ==> Flows(p, ins, outs, c)
      decreases Missing(ins, Universe(p, n)), changed
    {
      ghost var start := ins;
      changed := false;
      b := n;
      while b > 0
        invariant 0 <= b <= n && |ins| == |outs| == n && Iterate(p, ins, outs)
        invariant forall c :: 0 <= c < n ==> Transferred(p, ins, outs, c)
        invariant !changed ==> ins == start && forall c :: b <= c < n ==> Flows(p, ins, outs, c)
        invariant changed ==> Missing(ins, Universe(p, n)) < Missing(start, Universe(p, n))
      {
        b := b - 1;
        var out := CollectOutputs(p, ins, outs, b);
        if !changed { OtherFlows(p, ins, outs, b, outs[b := out]); }
        if out != outs[b] {
          ghost var oldIns, oldOuts := ins, outs;
          outs := outs[b := out];
          var newIns := UpdateInputs(p, ins, outs, b);
          OtherBlocks(p, oldIns, oldOuts, newIns, outs, b);
          changed := newIns != ins || changed;
          ins := newIns;
        } else {
          assert outs[b := out] == outs;
        }
      }
    }
    SolutionIntro(p, ins, outs);
  }

  lemma SolutionIntro(p: Program, ins: seq<set<Reg>>, outs: seq<set<Reg>>)
    requires WellFormed(p) && Iterate(p, ins, outs)
    requires forall b :: 0 <= b < |p.blocks| ==> Transferred(p, ins, outs, b) && Flows(p, ins, outs, b)
    ensures Solution(p, ins, outs) && Least(p, ins, outs) && Inside(ins, outs, Universe(p, |p.blocks|))
  {
  }

  method Seeds(p: Program) returns (ins: seq<set<Reg>>, outs: seq<set<Reg>>)
    requires WellFormed(p)
    ensures |ins| == |outs| == |p.blocks| && Iterate(p, ins, outs)
  {
    ins := seq(|p.blocks|, b requires 0 <= b < |p.blocks| => SeedIn(p, b));
    outs := seq(|p.blocks|, b requires 0 <= b < |p.blocks| => SeedOut(p, b));
    UniverseSeeds(p, |p.blocks|);
    forall ins', outs' | Solution(p, ins', outs') ensures Under(ins, outs, ins', outs') {
      forall b | 0 <= b < |p.blocks| ensures ins[b] <= ins'[b] && outs[b] <= outs'[b] {
        assert Transferred(p, ins', outs', b);
      }
    }
  }
}
