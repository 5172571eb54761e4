/** Instructions over registers, stack slots and memory, and what they do. */
module Operations {
  import opened Liveness

  /** A plain instruction by its operands in order, an operand that is read and written in both
      lists; a store of a register to its stack slot; a reload from it.
   */
  datatype Op =
    | Plain(id: int, ins: seq<Reg>, outs: seq<Reg>, clobbers: set<Reg>)
    | Store(reg: Reg, slot: Reg)
    | Reload(reg: Reg, slot: Reg)
  {
    function Ins(): seq<Reg> {
      match this
      case Plain(_, ins, _, _) => ins
      case Store(reg, _) => [reg]
      case Reload(_, _) => []
    }

    function Outs(): seq<Reg> {
      match this
      case Plain(_, _, outs, _) => outs
      case Store(_, _) => []
      case Reload(reg, _) => [reg]
    }

    function Clobbers(): set<Reg> { if Plain? then clobbers else {} }

    predicate Writes(r: Reg) { r in Outs() || r in Clobbers() }

    predicate Mentions(r: Reg) { r in Ins() || Writes(r) }

    /** Writes no register at all, as the instructions that end blocks. */
    predicate Quiet() { Plain? && outs == [] && clobbers == {} }

    function Instruction(): Instr { Instr((set r | r in Ins()), (set r | r in Outs()), Clobbers()) }

    function Substitute(c: Reg -> Reg): Op {
      match this
      case Plain(id, ins, outs, clobbers) => Plain(id, Renamed(ins, c), Renamed(outs, c), clobbers)
      case Store(reg, slot) => Store(c(reg), slot)
      case Reload(reg, slot) => Reload(c(reg), slot)
    }
  }

  function Renamed(rs: seq<Reg>, c: Reg -> Reg): (s: seq<Reg>)
    ensures |s| == |rs| && forall i :: 0 <= i < |rs| ==> s[i] == c(rs[i])
  {
    seq(|rs|, i requires 0 <= i < |rs| => c(rs[i]))
  }

  /** An instruction and its position in the block. */
  datatype Placed = Placed(pos: real, op: Op)

  type code = seq<Placed>

  function Instructions(c: code): (instrs: seq<Instr>)
    ensures |instrs| == |c| && forall k :: 0 <= k < |c| ==> instrs[k] == c[k].op.Instruction()
  {
    seq(|c|, k requires 0 <= k < |c| => c[k].op.Instruction())
  }

  // ----- liveness of one register, from a point of a block on

  /** The register is read before it is written, or wanted at the end. */
  predicate Wanted(c: code, r: Reg, end: bool) {
    if c == [] then end
    else r in c[0].op.Ins() || (!c[0].op.Writes(r) && Wanted(c[1..], r, end))
  }

  ghost predicate Ordinary(x: Special, r: Reg) { r !in x.always && r !in x.never }

  /** For ordinary registers this is what the backward iteration computes. */
  lemma {:induction false} LiveIsWanted(x: Special, c: code, out: set<Reg>, k: nat, r: Reg)
    requires k <= |c| && Ordinary(x, r)
    ensures r in LiveAt(x, Instructions(c), out, k) <==> Wanted(c[k..], r, r in out)
    decreases |c| - k
  {
    if k < |c| {
      LiveIsWanted(x, c, out, k + 1, r);
      assert c[k..][1..] == c[k + 1..] && c[k..][0] == c[k];
    }
  }

  lemma WantedCons(p: Placed, c: code, r: Reg, end: bool)
    ensures Wanted([p] + c, r, end) <==> r in p.op.Ins() || (!p.op.Writes(r) && Wanted(c, r, end))
  {
    assert ([p] + c)[1..] == c;
  }

  // ----- execution

  /** Registers, stack slots, and everything else that instructions read and write. */
  datatype State<!V, M> = State(regs: Reg -> V, stack: Reg -> V, mem: M)

  /** What plain instructions do: output i from the input values and memory, the new memory, what
      a clobbered register holds afterwards; and which way the end of a block branches.
   */
  datatype Machine<!V, !M> = Machine(out: ((int, seq<V>, M, int)) -> V, mem: ((int, seq<V>, M)) -> M,
                                     junk: ((int, Reg)) -> V, branch: M -> nat)

  function Values<V, M>(s: State<V, M>, rs: seq<Reg>): (vs: seq<V>)
    ensures |vs| == |rs| && forall i :: 0 <= i < |rs| ==> vs[i] == s.regs(rs[i])
  {
    seq(|rs|, i requires 0 <= i < |rs| => s.regs(rs[i]))
  }

  /** The last position of r in rs, -1 if there is none. */
  function Position(rs: seq<Reg>, r: Reg): (i: int)
    ensures -1 <= i < |rs| && (i >= 0 ==> rs[i] == r) && (i < 0 ==> r !in rs)
    ensures forall j :: i < j < |rs| ==> rs[j] != r
  {
    if rs == [] then -1 else if rs[|rs| - 1] == r then |rs| - 1 else Position(rs[..|rs| - 1], r)
  }

  function Put<V>(f: Reg -> V, r: Reg, v: V): Reg -> V { q => if q == r then v else f(q) }

  function Written<V, M>(m: Machine<V, M>, op: Op, s: State<V, M>, r: Reg): V
    requires op.Plain?
  {
    var i := Position(op.outs, r);
    if i >= 0 then m.out((op.id, Values(s, op.ins), s.mem, i))
    else if r in op.clobbers then m.junk((op.id, r)) else s.regs(r)
  }

  function Step<V, M>(m: Machine<V, M>, op: Op, s: State<V, M>): State<V, M> {
    match op
    case Plain(id, ins, _, _) => State(r => Written(m, op, s, r), s.stack, m.mem((id, Values(s, ins), s.mem)))
    case Store(reg, slot) => s.(stack := Put(s.stack, slot, s.regs(reg)))
    case Reload(reg, slot) => s.(regs := Put(s.regs, reg, s.stack(slot)))
  }

  function RunCode<V, M>(m: Machine<V, M>, c: code, s: State<V, M>): State<V, M> {
    if c == [] then s else RunCode(m, c[1..], Step(m, c[0].op, s))
  }

  /** A block, and where it can go; a block without successors returns. */
  datatype Body = Body(code: code, succ: seq<nat>)

  /** Where a run is: about to execute block, or returned from it. */
  datatype Point<!V, M> = Point(block: nat, returned: bool, state: State<V, M>)

  function RunBlock<V, M>(m: Machine<V, M>, bodies: seq<Body>, at: Point<V, M>): Point<V, M> {
    if at.returned || at.block >= |bodies| then at else
      var body := bodies[at.block];
      var s := RunCode(m, body.code, at.state);
      if body.succ == [] then Point(at.block, true, s)
      else Point(body.succ[m.branch(s.mem) % |body.succ|], false, s)
  }

  function Run<V, M>(m: Machine<V, M>, bodies: seq<Body>, at: Point<V, M>, n: nat): Point<V, M> {
    if n == 0 then at else RunBlock(m, bodies, Run(m, bodies, at, n - 1))
  }

  // ----- liveness of whole functions

  ghost predicate Linked(bodies: seq<Body>) {
    bodies != [] && forall b, i :: 0 <= b < |bodies| && 0 <= i < |bodies[b].succ| ==> bodies[b].succ[i] < |bodies|
  }

  function ProgramOf(x: Special, bodies: seq<Body>, inputs: set<Reg>, outputs: set<Reg>): (p: Program)
    ensures p.special == x && p.inputs == inputs && p.outputs == outputs && |p.blocks| == |bodies|
    ensures forall b :: 0 <= b < |bodies| ==> p.blocks[b] == Block(Instructions(bodies[b].code), bodies[b].succ)
  {
    Program(x, seq(|bodies|, b requires 0 <= b < |bodies| => Block(Instructions(bodies[b].code), bodies[b].succ)), inputs, outputs)
  }

  /** The sets of registers at the block boundaries hold what is wanted there. */
  ghost predicate Flow(x: Special, bodies: seq<Body>, outputs: set<Reg>, ins: seq<set<Reg>>, outs: seq<set<Reg>>) {
    && Linked(bodies) && |ins| == |outs| == |bodies|
    && forall b :: 0 <= b < |bodies| ==> FlowAt(x, bodies, outputs, ins, outs, b)
  }

  ghost predicate FlowAt(x: Special, bodies: seq<Body>, outputs: set<Reg>, ins: seq<set<Reg>>, outs: seq<set<Reg>>, b: int)
    requires Linked(bodies) && |ins| == |outs| == |bodies| && 0 <= b < |bodies|
  {
    && (forall r :: Ordinary(x, r) && Wanted(bodies[b].code, r, r in outs[b]) ==> r in ins[b])
    && (forall r, i :: 0 <= i < |bodies[b].succ| && r in ins[bodies[b].succ[i]] && Ordinary(x, r) ==> r in outs[b])
    && (bodies[b].succ == [] ==> forall r :: r in outputs && Ordinary(x, r) ==> r in outs[b])
  }

  /** A solution of the liveness equations is such a flow. */
  lemma SolutionFlows(x: Special, bodies: seq<Body>, inputs: set<Reg>, outputs: set<Reg>, ins: seq<set<Reg>>, outs: seq<set<Reg>>)
    requires Linked(bodies) && WellFormed(ProgramOf(x, bodies, inputs, outputs)) && Solution(ProgramOf(x, bodies, inputs, outputs), ins, outs)
    ensures Flow(x, bodies, outputs, ins, outs)
  {
    var p := ProgramOf(x, bodies, inputs, outputs);
    forall b | 0 <= b < |bodies| ensures FlowAt(x, bodies, outputs, ins, outs, b) {
      assert SeedOut(p, b) <= outs[b] && Flows(p, ins, outs, b) && Transferred(p, ins, outs, b);
      var c := bodies[b].code;
      forall r | Ordinary(x, r) && Wanted(c, r, r in outs[b]) ensures r in ins[b] {
        LiveIsWanted(x, c, outs[b], 0, r);
        assert c[0..] == c;
      }
      forall r, i | 0 <= i < |bodies[b].succ| && r in ins[bodies[b].succ[i]] && Ordinary(x, r) ensures r in outs[b] {
        assert p.blocks[b].succ[i] == bodies[b].succ[i];
      }
    }
  }
}
