/** A program run with its registers replaced by their colours computes the same values. */
module ColoredRun {
  import opened Liveness
  import opened Operations

  /** Colours keep the space, leave special registers alone and never are special otherwise. */
  ghost predicate Colors(x: Special, c: Reg -> Reg) {
    forall r :: (Ordinary(x, r) ==> Ordinary(x, c(r)) && c(r).space == r.space) && (!Ordinary(x, r) ==> c(r) == r)
  }

  /** What an instruction writes gets no colour of another register that is still wanted, or that it
      also writes; what it clobbers is its own colour.
   */
  ghost predicate HeadProper(x: Special, op: Op, rest: code, out: set<Reg>, c: Reg -> Reg) {
    && (forall d, r {:trigger op.Writes(d), c(r)} ::
          op.Writes(d) && (r in op.Outs() || Wanted(rest, r, r in out)) && Ordinary(x, d) && Ordinary(x, r) && d != r ==> c(d) != c(r))
    && forall d :: d in op.Clobbers() ==> c(d) == d
  }

  ghost predicate ProperCode(x: Special, cs: code, out: set<Reg>, c: Reg -> Reg) {
    cs == [] || (HeadProper(x, cs[0].op, cs[1..], out, c) && ProperCode(x, cs[1..], out, c))
  }

  function Substituted(cs: code, c: Reg -> Reg): (s: code)
    ensures |s| == |cs| && forall k :: 0 <= k < |cs| ==> s[k] == Placed(cs[k].pos, cs[k].op.Substitute(c))
  {
    seq(|cs|, k requires 0 <= k < |cs| => Placed(cs[k].pos, cs[k].op.Substitute(c)))
  }

  /** Wanted and special registers hold the same values as their colours. */
  ghost predicate Simulates<V, M>(x: Special, cs: code, out: set<Reg>, c: Reg -> Reg, s: State<V, M>, t: State<V, M>) {
    && s.mem == t.mem && (forall o :: s.stack(o) == t.stack(o))
    && forall r :: Wanted(cs, r, r in out) || !Ordinary(x, r) ==> s.regs(r) == t.regs(c(r))
  }

  // ----- one instruction

  lemma ReadsAgree<V, M>(x: Special, cs: code, out: set<Reg>, c: Reg -> Reg, s: State<V, M>, t: State<V, M>)
    requires cs != [] && Simulates(x, cs, out, c, s, t)
    ensures Values(s, cs[0].op.Ins()) == Values(t, Renamed(cs[0].op.Ins(), c))
  {
  }

  /** A wanted register that the instruction does not write keeps its colour to itself. */
  lemma ColorKept(x: Special, op: Op, rest: code, out: set<Reg>, c: Reg -> Reg, r: Reg, d: Reg)
    requires Colors(x, c) && HeadProper(x, op, rest, out, c)
    requires Wanted(rest, r, r in out) || r in op.Outs() || !Ordinary(x, r)
    requires op.Writes(d) && d != r
    ensures c(d) != c(r)
  {
  }

  /** Distinct outputs have distinct colours, so each lands where it is looked for. */
  lemma PositionKept(x: Special, op: Op, rest: code, out: set<Reg>, c: Reg -> Reg, r: Reg)
    requires Colors(x, c) && HeadProper(x, op, rest, out, c) && r in op.Outs()
    ensures Position(Renamed(op.Outs(), c), c(r)) == Position(op.Outs(), r)
  {
    forall j | 0 <= j < |op.Outs()| ensures c(op.Outs()[j]) == c(r) <==> op.Outs()[j] == r {
      if op.Outs()[j] != r { ColorKept(x, op, rest, out, c, r, op.Outs()[j]); }
    }
  }

  lemma WrittenAgrees<V, M>(m: Machine<V, M>, x: Special, op: Op, rest: code, out: set<Reg>, c: Reg -> Reg, s: State<V, M>, t: State<V, M>, r: Reg)
    requires op.Plain? && Colors(x, c) && HeadProper(x, op, rest, out, c)
    requires Wanted(rest, r, r in out) || !Ordinary(x, r)
    requires Values(s, op.ins) == Values(t, Renamed(op.ins, c)) && s.mem == t.mem
    requires !op.Writes(r) ==> s.regs(r) == t.regs(c(r))
    ensures Written(m, op, s, r) == Written(m, op.Substitute(c), t, c(r))
  {
    if r in op.outs {
      PositionKept(x, op, rest, out, c, r);
    } else {
      forall i | 0 <= i < |op.outs| ensures c(op.outs[i]) != c(r) {
        ColorKept(x, op, rest, out, c, r, op.outs[i]);
      }
      if c(r) in op.clobbers && c(r) != r {
        ColorKept(x, op, rest, out, c, r, c(r));
      }
    }
  }

  lemma StepSimulates<V, M>(m: Machine<V, M>, x: Special, cs: code, out: set<Reg>, c: Reg -> Reg, s: State<V, M>, t: State<V, M>)
    requires cs != [] && Colors(x, c) && HeadProper(x, cs[0].op, cs[1..], out, c) && Simulates(x, cs, out, c, s, t)
    ensures Simulates(x, cs[1..], out, c, Step(m, cs[0].op, s), Step(m, cs[0].op.Substitute(c), t))
  {
    var op, rest := cs[0].op, cs[1..];
    var s', t' := Step(m, op, s), Step(m, op.Substitute(c), t);
    ReadsAgree(x, cs, out, c, s, t);
    hide HeadProper;
    if op.Store? { assert op.reg in op.Ins(); }
    forall r | Wanted(rest, r, r in out) || !Ordinary(x, r) ensures s'.regs(r) == t'.regs(c(r)) {
      match op
      case Plain(_, _, _, _) => WrittenAgrees(m, x, op, rest, out, c, s, t, r);
      case Store(_, _) =>
      case Reload(reg, _) => if r != reg { ColorKept(x, op, rest, out, c, r, reg); }
    }
  }

  // ----- one block

  lemma {:induction false} BlockSimulates<V, M>(m: Machine<V, M>, x: Special, cs: code, out: set<Reg>, c: Reg -> Reg, s: State<V, M>, t: State<V, M>)
    requires Colors(x, c) && ProperCode(x, cs, out, c) && Simulates(x, cs, out, c, s, t)
    ensures Simulates(x, [], out, c, RunCode(m, cs, s), RunCode(m, Substituted(cs, c), t))
  {
    if cs != [] {
      StepSimulates(m, x, cs, out, c, s, t);
      assert Substituted(cs, c)[1..] == Substituted(cs[1..], c);
      hide Simulates, HeadProper, Step, Colors;
      BlockSimulates(m, x, cs[1..], out, c, Step(m, cs[0].op, s), Step(m, cs[0].op.Substitute(c), t));
    }
  }

  // ----- whole functions

  function Colored(bodies: seq<Body>, c: Reg -> Reg): (r: seq<Body>)
    ensures |r| == |bodies| && forall b :: 0 <= b < |bodies| ==> r[b] == Body(Substituted(bodies[b].code, c), bodies[b].succ)
  {
    seq(|bodies|, b requires 0 <= b < |bodies| => Body(Substituted(bodies[b].code, c), bodies[b].succ))
  }

  ghost predicate Allocated(x: Special, bodies: seq<Body>, outs: seq<set<Reg>>, c: Reg -> Reg) {
    && |outs| == |bodies| && Colors(x, c)
    && forall b :: 0 <= b < |bodies| ==> ProperCode(x, bodies[b].code, outs[b], c)
  }

  /** The registers that matter at a point of a run hold the same values as their colours. */
  ghost predicate SamePoint<V, M>(x: Special, outputs: set<Reg>, ins: seq<set<Reg>>, c: Reg -> Reg, a: Point<V, M>, b: Point<V, M>) {
    && a.block == b.block < |ins| && a.returned == b.returned
    && Simulates(x, [], if a.returned then outputs else ins[a.block], c, a.state, b.state)
  }

  lemma Narrow<V, M>(x: Special, cs: code, out: set<Reg>, cs': code, out': set<Reg>, c: Reg -> Reg, s: State<V, M>, t: State<V, M>)
    requires Simulates(x, cs, out, c, s, t)
    requires forall r :: Ordinary(x, r) && Wanted(cs', r, r in out') ==> Wanted(cs, r, r in out)
    ensures Simulates(x, cs', out', c, s, t)
  {
  }

  lemma RunBlockSimulates<V, M>(m: Machine<V, M>, x: Special, bodies: seq<Body>, outputs: set<Reg>,
                                ins: seq<set<Reg>>, outs: seq<set<Reg>>, c: Reg -> Reg, a: Point<V, M>, b: Point<V, M>)
    requires Flow(x, bodies, outputs, ins, outs) && Allocated(x, bodies, outs, c) && SamePoint(x, outputs, ins, c, a, b)
    ensures SamePoint(x, outputs, ins, c, RunBlock(m, bodies, a), RunBlock(m, Colored(bodies, c), b))
  {
    if !a.returned {
      var body, out := bodies[a.block], outs[a.block];
      var s := RunCode(m, body.code, a.state);
      var t := RunCode(m, Substituted(body.code, c), b.state);
      assert FlowAt(x, bodies, outputs, ins, outs, a.block);
      hide Simulates;
      Narrow(x, [], ins[a.block], body.code, out, c, a.state, b.state);
      BlockSimulates(m, x, body.code, out, c, a.state, b.state);
      SameMemory(x, [], out, c, s, t);
      if body.succ == [] {
        Narrow(x, [], out, [], outputs, c, s, t);
      } else {
        Narrow(x, [], out, [], ins[body.succ[m.branch(s.mem) % |body.succ|]], c, s, t);
      }
    }
  }

  lemma SameMemory<V, M>(x: Special, cs: code, out: set<Reg>, c: Reg -> Reg, s: State<V, M>, t: State<V, M>)
    requires Simulates(x, cs, out, c, s, t)
    ensures s.mem == t.mem
  {
  }

  /** However far a function has run, with its registers or with their colours, it is at the
      same block with the same memory, and every live register has its value in its colour.
   */
  lemma {:induction false} ColoringPreservesRuns<V, M>(m: Machine<V, M>, x: Special, bodies: seq<Body>, outputs: set<Reg>,
                                                       ins: seq<set<Reg>>, outs: seq<set<Reg>>, c: Reg -> Reg, a: Point<V, M>, b: Point<V, M>, n: nat)
    requires Flow(x, bodies, outputs, ins, outs) && Allocated(x, bodies, outs, c) && SamePoint(x, outputs, ins, c, a, b)
    ensures SamePoint(x, outputs, ins, c, Run(m, bodies, a, n), Run(m, Colored(bodies, c), b, n))
  {
    if n > 0 {
      hide SamePoint, Flow, Allocated, RunBlock;
      ColoringPreservesRuns(m, x, bodies, outputs, ins, outs, c, a, b, n - 1);
      RunBlockSimulates(m, x, bodies, outputs, ins, outs, c, Run(m, bodies, a, n - 1), Run(m, Colored(bodies, c), b, n - 1));
    }
  }
}
