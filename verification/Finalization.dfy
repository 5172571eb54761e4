/** Register allocation from start to finish: the allocated function computes what the function does. */
module Finalization {
  import opened Liveness
  import opened Operations
  import opened LiveRanges
  import opened ColoredRun
  import opened Coloring
  import opened Spilling
  import opened SpilledFunction

  // ----- runs of a spilled function

  function RunFn<V, M>(m: Machine<V, M>, f: Fn, s: State<V, M>, n: nat): Point<V, M> {
    Run(m, f.bodies, Point(0, false, RunCode(m, f.prologue, s)), n)
  }

  ghost predicate PlainCode(c: code) { forall k :: 0 <= k < |c| ==> c[k].op.Plain? }

  lemma {:induction false} PlainRuns<V, M>(m: Machine<V, M>, c: code, s: State<V, M>)
    requires PlainCode(c)
    ensures RunOps(m, Original(Itself(), c), s) == RunCode(m, c, s)
  {
    if c != [] {
      var op := c[0].op;
      assert Renamed(op.ins, Itself()) == op.ins && Renamed(op.outs, Itself()) == op.outs;
      assert op.Substitute(Itself()) == op;
      assert Original(Itself(), c)[0] == op && Original(Itself(), c)[1..] == Original(Itself(), c[1..]);
      hide Step;
      forall k | 0 <= k < |c[1..]| ensures c[1..][k].op.Plain? { assert c[1..][k] == c[k + 1]; }
      PlainRuns(m, c[1..], Step(m, op, s));
    }
  }

  ghost function AvailableAt(v: View, bodies: seq<Body>, b: nat, returned: bool): iset<Loc>
    requires b < |bodies| == |v.avail|
  {
    if returned then Final(v.og, bodies[b].code, v.avail[b]) else v.avail[b]
  }

  /** The same place, and every available location holds the value of its original register. */
  ghost predicate MirrorsPoint<V, M>(v: View, bodies: seq<Body>, p: Point<V, M>, o: Point<V, M>)
    requires |bodies| == |v.avail|
  {
    p.block == o.block < |bodies| && p.returned == o.returned
    && Mirrors(v.og, AvailableAt(v, bodies, p.block, p.returned), p.state, o.state)
  }

  lemma FewerMirror<V, M>(og: Reg -> Reg, a: iset<Loc>, b: iset<Loc>, s: State<V, M>, o: State<V, M>)
    requires Mirrors(og, b, s, o) && a <= b
    ensures Mirrors(og, a, s, o)
  {
  }

  lemma BlockGood(max: int, og: Reg -> Reg, unused: nat, c: code)
    requires BlockFine(max, og, unused, c)
    ensures GoodCode(og, c) && ClobbersOriginal(og, c)
  {
    forall k | 0 <= k < |c| ensures GoodOp(og, c[k].op) && ClobbersKept(og, c[k].op) {
      assert OpFine(max, og, unused, c[k].op);
    }
  }

  lemma BlockMirrors<V, M>(m: Machine<V, M>, max: int, x: Special, outputs: set<Reg>, f: Fn, v: View, orig: seq<Body>, p: Point<V, M>, o: Point<V, M>)
    requires Spillable(max, x, outputs, f, v) && Computes(v.og, f.bodies, orig) && MirrorsPoint(v, f.bodies, p, o)
    requires forall b :: 0 <= b < |orig| ==> PlainCode(orig[b].code)
    ensures MirrorsPoint(v, f.bodies, RunBlock(m, f.bodies, p), RunBlock(m, orig, o))
  {
    if !p.returned {
      var b := p.block;
      var c, a := f.bodies[b].code, v.avail[b];
      assert BlockSpillable(max, f.bodies, v, b);
      BlockGood(max, v.og, v.unused, c);
      assert orig[b].succ == f.bodies[b].succ && Original(v.og, c) == Original(Itself(), orig[b].code);
      assert forall i :: 0 <= i < |f.bodies[b].succ| ==> v.avail[f.bodies[b].succ[i]] <= Final(v.og, c, a);
      assert forall i :: 0 <= i < |f.bodies[b].succ| ==> f.bodies[b].succ[i] < |f.bodies|;
      hide Spillable, Computes, BlockSpillable, Mirrors, BlockFine, Sound, Final, GoodCode, ClobbersOriginal;
      PlainRuns(m, orig[b].code, o.state);
      SoundRuns(m, v.og, c, a, p.state, o.state);
      var s, t := RunCode(m, c, p.state), RunCode(m, orig[b].code, o.state);
      MirrorMemory(v.og, Final(v.og, c, a), s, t);
      if f.bodies[b].succ != [] {
        var next := f.bodies[b].succ[m.branch(s.mem) % |f.bodies[b].succ|];
        FewerMirror(v.og, v.avail[next], Final(v.og, c, a), s, t);
      }
    }
  }

  lemma MirrorMemory<V, M>(og: Reg -> Reg, a: iset<Loc>, s: State<V, M>, o: State<V, M>)
    requires Mirrors(og, a, s, o)
    ensures s.mem == o.mem
  {
  }

  /** The prologue's stores fill the slots that block 0 relies on. */
  lemma PrologueMirrors<V, M>(m: Machine<V, M>, max: int, x: Special, outputs: set<Reg>, f: Fn, v: View, s: State<V, M>, o: State<V, M>)
    requires Spillable(max, x, outputs, f, v)
    requires s.mem == o.mem && forall r: Reg :: r.id < v.first ==> s.regs(r) == o.regs(r)
    ensures Mirrors(v.og, v.avail[0], RunCode(m, f.prologue, s), o)
  {
    forall k | 0 <= k < |f.prologue| ensures GoodOp(v.og, f.prologue[k].op) && ClobbersKept(v.og, f.prologue[k].op) && f.prologue[k].op.Store? {
      assert f.prologue[k].op.Store? && f.prologue[k].op.reg in v.stored;
    }
    StoresOriginal(v.og, f.prologue);
    assert Mirrors(v.og, Everything(v.first), s, o);
    hide Mirrors;
    SoundRuns(m, v.og, f.prologue, Everything(v.first), s, o);
    FewerMirror(v.og, v.avail[0], Final(v.og, f.prologue, Everything(v.first)), RunCode(m, f.prologue, s), o);
  }

  lemma {:induction false} StoresOriginal(og: Reg -> Reg, c: code)
    requires forall k :: 0 <= k < |c| ==> c[k].op.Store?
    ensures Original(og, c) == []
  {
    if c != [] {
      assert c[0].op.Store?;
      StoresOriginal(og, c[1..]);
    }
  }

  /** However often registers have been spilled, and however far the function has run: it is at the
      same block with the same memory, and what is available holds the original values.
   */
  lemma {:induction false} SpilledRuns<V, M>(m: Machine<V, M>, max: int, x: Special, outputs: set<Reg>, f: Fn, v: View, orig: seq<Body>,
                                             s: State<V, M>, o: State<V, M>, n: nat)
    requires Spillable(max, x, outputs, f, v) && Computes(v.og, f.bodies, orig)
    requires forall b :: 0 <= b < |orig| ==> PlainCode(orig[b].code)
    requires s.mem == o.mem && forall r: Reg :: r.id < v.first ==> s.regs(r) == o.regs(r)
    ensures MirrorsPoint(v, f.bodies, RunFn(m, f, s, n), Run(m, orig, Point(0, false, o), n))
  {
    if n == 0 {
      PrologueMirrors(m, max, x, outputs, f, v, s, o);
    } else {
      SpilledRuns(m, max, x, outputs, f, v, orig, s, o, n - 1);
      hide Spillable, Computes, MirrorsPoint, RunBlock;
      BlockMirrors(m, max, x, outputs, f, v, orig, RunFn(m, f, s, n - 1), Run(m, orig, Point(0, false, o), n - 1));
    }
  }

  // ----- runs of the coloured function

  function ColoredFn(f: Fn, c: Reg -> Reg): Fn { Fn(Substituted(f.prologue, c), Colored(f.bodies, c)) }

  /** The colours of inputs hold what the inputs hold, and so do special registers. */
  ghost predicate SameEntry<V, M>(x: Special, inputs: set<Reg>, c: Reg -> Reg, s: State<V, M>, t: State<V, M>) {
    s.mem == t.mem && forall r :: r in inputs || !Ordinary(x, r) ==> s.regs(r) == t.regs(c(r))
  }

  lemma {:induction false} StoresSimulate<V, M>(m: Machine<V, M>, prologue: code, inputs: set<Reg>, c: Reg -> Reg, s: State<V, M>, t: State<V, M>)
    requires StoresOf(prologue, inputs) && s.mem == t.mem && (forall o :: s.stack(o) == t.stack(o))
    requires forall r :: r in inputs ==> s.regs(r) == t.regs(c(r))
    ensures var s', t' := RunCode(m, prologue, s), RunCode(m, Substituted(prologue, c), t);
      s'.mem == t'.mem && s'.regs == s.regs && t'.regs == t.regs && forall o :: s'.stack(o) == t'.stack(o)
  {
    if prologue != [] {
      var op := prologue[0].op;
      assert op.Store? && op.reg in inputs;
      assert Substituted(prologue, c)[1..] == Substituted(prologue[1..], c);
      forall k | 0 <= k < |prologue[1..]| ensures prologue[1..][k] == prologue[k + 1] {}
      StoresSimulate(m, prologue[1..], inputs, c, Step(m, op, s), Step(m, op.Substitute(c), t));
    }
  }

  /** The result of an allocation: spilled, coloured without conflicts, and entered with its inputs. */
  ghost predicate Finalized(max: int, x: Special, orig: seq<Body>, inputs: set<Reg>, outputs: set<Reg>, f: Fn, v: View, subs: map<Reg, Reg>) {
    && Spillable(max, x, outputs, f, v) && Computes(v.og, f.bodies, orig) && Allocated(x, f.bodies, v.outs, ColorFn(subs))
    && StoresOf(f.prologue, inputs) && forall r :: r in v.ins[0] && Ordinary(x, r) ==> r in inputs
  }

  /** The same place and memory; on return every output is in its colour. */
  ghost predicate SameResult<V, M>(x: Special, outputs: set<Reg>, c: Reg -> Reg, o: Point<V, M>, t: Point<V, M>) {
    && o.block == t.block && o.returned == t.returned && o.state.mem == t.state.mem
    && (o.returned ==> forall r :: r in outputs && Ordinary(x, r) ==> o.state.regs(r) == t.state.regs(c(r)))
  }

  lemma ColoredRuns<V, M>(m: Machine<V, M>, max: int, x: Special, orig: seq<Body>, inputs: set<Reg>, outputs: set<Reg>, f: Fn, v: View,
                          subs: map<Reg, Reg>, u: State<V, M>, t: State<V, M>, n: nat)
    requires Finalized(max, x, orig, inputs, outputs, f, v, subs) && SameEntry(x, inputs, ColorFn(subs), u, t)
    requires forall o :: u.stack(o) == t.stack(o)
    ensures SamePoint(x, outputs, v.ins, ColorFn(subs), RunFn(m, f, u, n), RunFn(m, ColoredFn(f, ColorFn(subs)), t, n))
  {
    var c := ColorFn(subs);
    StoresSimulate(m, f.prologue, inputs, c, u, t);
    var a, b := Point(0, false, RunCode(m, f.prologue, u)), Point(0, false, RunCode(m, Substituted(f.prologue, c), t));
    assert SamePoint(x, outputs, v.ins, c, a, b);
    assert Flow(x, f.bodies, outputs, v.ins, v.outs);
    hide Finalized, Flow, Allocated, SamePoint, Spillable;
    ColoringPreservesRuns(m, x, f.bodies, outputs, v.ins, v.outs, c, a, b, n);
  }

  lemma ReturnedOutput<V, M>(max: int, x: Special, outputs: set<Reg>, f: Fn, v: View, c: Reg -> Reg, r: Reg,
                             u: Point<V, M>, o: Point<V, M>, t: Point<V, M>)
    requires Spillable(max, x, outputs, f, v) && MirrorsPoint(v, f.bodies, u, o) && SamePoint(x, outputs, v.ins, c, u, t)
    requires u.returned && f.bodies[u.block].succ == [] && r in outputs && Ordinary(x, r)
    ensures o.state.regs(r) == t.state.regs(c(r))
  {
    assert FlowAt(x, f.bodies, outputs, v.ins, v.outs, u.block) && BlockSpillable(max, f.bodies, v, u.block);
    assert InReg(r) in AvailableAt(v, f.bodies, u.block, true);
    assert Holding(u.state, InReg(r)) == o.state.regs(v.og(r));
  }

  /** A run only returns from blocks without successors. */
  lemma {:induction false} ReturnsAtEnd<V, M>(m: Machine<V, M>, bodies: seq<Body>, at: Point<V, M>, n: nat)
    requires !at.returned
    ensures var p := Run(m, bodies, at, n); p.returned ==> p.block < |bodies| && bodies[p.block].succ == []
  {
    if n > 0 { ReturnsAtEnd(m, bodies, at, n - 1); }
  }

  /** The allocated function computes what the function computes: entered with the inputs in their
      colours, it is after any number of blocks at the same block with the same memory, and when it
      returns, the outputs are in their colours. What the stack held before does not matter.
   */
  lemma AllocationPreservesRuns<V, M>(m: Machine<V, M>, max: int, x: Special, orig: seq<Body>, inputs: set<Reg>, outputs: set<Reg>, f: Fn, v: View,
                                      subs: map<Reg, Reg>, s: State<V, M>, t: State<V, M>, n: nat)
    requires Finalized(max, x, orig, inputs, outputs, f, v, subs) && SameEntry(x, inputs, ColorFn(subs), s, t)
    requires forall b :: 0 <= b < |orig| ==> PlainCode(orig[b].code)
    ensures SameResult(x, outputs, ColorFn(subs), Run(m, orig, Point(0, false, s), n), RunFn(m, ColoredFn(f, ColorFn(subs)), t, n))
  {
    var c, u := ColorFn(subs), State(s.regs, t.stack, s.mem);
    ColoredRuns(m, max, x, orig, inputs, outputs, f, v, subs, u, t, n);
    var p, q, o := RunFn(m, f, u, n), RunFn(m, ColoredFn(f, c), t, n), Run(m, orig, Point(0, false, s), n);
    assert Spillable(max, x, outputs, f, v) && Computes(v.og, f.bodies, orig);
    SpilledRuns(m, max, x, outputs, f, v, orig, u, s, n);
    ReturnsAtEnd(m, f.bodies, Point(0, false, RunCode(m, f.prologue, u)), n);
    hide Spillable, Computes, Finalized, RunFn, Run;
    forall r | o.returned && r in outputs && Ordinary(x, r) ensures o.state.regs(r) == q.state.regs(c(r)) {
      ReturnedOutput(max, x, outputs, f, v, c, r, p, o, q);
    }
  }

  // ----- the function to allocate

  /** Instructions of a block, and where it can go. */
  datatype Source = Source(ops: seq<Op>, succ: seq<nat>)

  /** Positions from 1 on. */
  function Numbered(ops: seq<Op>): (c: code)
    ensures |c| == |ops| && forall k :: 0 <= k < |ops| ==> c[k] == Placed((k + 1) as real, ops[k])
  {
    seq(|ops|, k requires 0 <= k < |ops| => Placed((k + 1) as real, ops[k]))
  }

  function Bodies(src: seq<Source>): (bodies: seq<Body>)
    ensures |bodies| == |src| && forall b :: 0 <= b < |src| ==> bodies[b] == Body(Numbered(src[b].ops), src[b].succ)
  {
    seq(|src|, b requires 0 <= b < |src| => Body(Numbered(src[b].ops), src[b].succ))
  }

  lemma {:induction false} NumberedIncreasing(c: code, k: nat, after: real)
    requires k <= |c| && after <= k as real && forall i :: 0 <= i < |c| ==> c[i].pos == (i + 1) as real
    ensures Increasing(c[k..], after)
    decreases |c| - k
  {
    if k < |c| {
      NumberedIncreasing(c, k + 1, c[k].pos);
      assert c[k..][0] == c[k] && c[k..][1..] == c[k + 1..];
    }
  }

  /** What finalize is given: plain instructions on registers below first, blocks that end with an
      instruction that writes no register, clobbered registers physical, and branches to blocks.
   */
  ghost predicate GivenOp(max: int, first: nat, op: Op) {
    op.Plain? && Below(op, first) && forall r :: r in op.clobbers ==> Physical(max, r)
  }

  ghost predicate GivenSource(max: int, first: nat, s: Source) {
    s.ops != [] && s.ops[|s.ops| - 1].Quiet() && forall k :: 0 <= k < |s.ops| ==> GivenOp(max, first, s.ops[k])
  }

  ghost predicate GivenFn(max: int, x: Special, first: nat, src: seq<Source>, inputs: set<Reg>, outputs: set<Reg>) {
    && max < first && Linked(Bodies(src)) && (forall b :: 0 <= b < |src| ==> GivenSource(max, first, src[b]))
    && (forall r: Reg :: r in inputs + outputs + x.always ==> r.id < first)
    && forall r: Reg :: r in x.always + x.never ==> Physical(max, r)
  }

  lemma SourceLaid(max: int, first: nat, s: Source)
    requires GivenSource(max, first, s)
    ensures Laid(Numbered(s.ops)) && BlockFine(max, Itself(), first, Numbered(s.ops)) && PlainCode(Numbered(s.ops))
  {
    var c := Numbered(s.ops);
    NumberedIncreasing(c, 0, 0.0);
    assert c[0..] == c;
    forall k | 0 <= k < |c| ensures OpFine(max, Itself(), first, c[k].op) {
      assert GivenOp(max, first, s.ops[k]);
    }
  }

  /** In code without stores and reloads every register always holds its own value. */
  lemma {:induction false} PlainSound(first: nat, c: code)
    requires forall k :: 0 <= k < |c| ==> c[k].op.Plain? && Below(c[k].op, first)
    ensures Sound(Itself(), c, Everything(first)) && Final(Itself(), c, Everything(first)) == Everything(first)
  {
    if c != [] {
      var op := c[0].op;
      assert op.Plain? && Below(op, first);
      forall i | 0 <= i < |op.ins| ensures InReg(op.ins[i]) in Everything(first) { assert op.Mentions(op.ins[i]); }
      forall l: Loc ensures l in After(Itself(), op, Everything(first)) <==> l in Everything(first) {
        if l.InReg? && op.Writes(l.reg) { assert op.Mentions(l.reg); }
      }
      assert After(Itself(), op, Everything(first)) == Everything(first);
      forall k | 0 <= k < |c[1..]| ensures c[1..][k].op.Plain? && Below(c[1..][k].op, first) { assert c[1..][k] == c[k + 1]; }
      PlainSound(first, c[1..]);
    }
  }

  lemma {:induction false} NoFreshDead(first: nat, c: code, q: Reg)
    requires (forall k :: 0 <= k < |c| ==> Below(c[k].op, first)) && q.id >= first
    ensures NoDead(c, q, false)
  {
    if c != [] {
      assert Below(c[0].op, first);
      forall k | 0 <= k < |c[1..]| ensures Below(c[1..][k].op, first) { assert c[1..][k] == c[k + 1]; }
      NoFreshDead(first, c[1..], q);
    }
  }

  ghost function FirstView(n: nat, ins: seq<set<Reg>>, outs: seq<set<Reg>>, first: nat): View {
    View(Itself(), seq(n, b requires 0 <= b < n => Everything(first)), ins, outs, first, first, {})
  }

  /** A function with its solved liveness can be spilled. */
  lemma StartsSpillable(max: int, x: Special, first: nat, src: seq<Source>, inputs: set<Reg>, outputs: set<Reg>, ins: seq<set<Reg>>, outs: seq<set<Reg>>)
    requires GivenFn(max, x, first, src, inputs, outputs) && Flow(x, Bodies(src), outputs, ins, outs)
    requires forall b, r: Reg :: 0 <= b < |src| && r in ins[b] + outs[b] ==> r.id < first
    ensures Spillable(max, x, outputs, Fn([], Bodies(src)), FirstView(|src|, ins, outs, first))
    ensures Computes(Itself(), Bodies(src), Bodies(src))
  {
    var v, bodies := FirstView(|src|, ins, outs, first), Bodies(src);
    forall b | 0 <= b < |bodies| ensures BlockSpillable(max, bodies, v, b) {
      var c := bodies[b].code;
      assert GivenSource(max, first, src[b]);
      SourceLaid(max, first, src[b]);
      forall k | 0 <= k < |c| ensures c[k].op.Plain? && Below(c[k].op, first) { assert GivenOp(max, first, src[b].ops[k]); }
      PlainSound(first, c);
      forall q: Reg | q.id >= first ensures NoDead(c, q, false) { NoFreshDead(first, c, q); }
      hide Sound, Final, NoDead, BlockFine;
      forall q | q in outs[b] ensures InReg(q) in Final(v.og, c, v.avail[b]) { assert q in ins[b] + outs[b]; }
    }
  }

  /** Liveness speaks of registers of the function only. */
  lemma {:induction false} UniverseBelow(max: int, x: Special, first: nat, src: seq<Source>, inputs: set<Reg>, outputs: set<Reg>, n: nat)
    requires GivenFn(max, x, first, src, inputs, outputs) && n <= |src|
    ensures forall r: Reg :: r in Universe(ProgramOf(x, Bodies(src), inputs, outputs), n) ==> r.id < first
  {
    if n > 0 {
      hide GivenSource, Registers, Numbered, Instructions, Linked;
      UniverseBelow(max, x, first, src, inputs, outputs, n - 1);
      BlockBelow(max, first, src[n - 1]);
      assert ProgramOf(x, Bodies(src), inputs, outputs).blocks[n - 1].code == Instructions(Numbered(src[n - 1].ops));
    }
  }

  lemma BlockBelow(max: int, first: nat, s: Source)
    requires GivenSource(max, first, s)
    ensures forall r: Reg :: r in Registers(Instructions(Numbered(s.ops))) ==> r.id < first
  {
    var ops := s.ops;
    forall k | 0 <= k < |ops| ensures Below(ops[k], first) { assert GivenOp(max, first, ops[k]); }
    RegistersBelow(first, Instructions(Numbered(ops)), ops);
  }

  lemma {:induction false} RegistersBelow(first: nat, c: seq<Instr>, ops: seq<Op>)
    requires |c| == |ops| && (forall k :: 0 <= k < |ops| ==> c[k] == ops[k].Instruction()) && forall k :: 0 <= k < |ops| ==> Below(ops[k], first)
    ensures forall r: Reg :: r in Registers(c) ==> r.id < first
  {
    if c != [] {
      var rest, more := c[1..], ops[1..];
      RegistersBelow(first, rest, more);
      assert Below(ops[0], first);
      forall r: Reg | r in c[0].uses ensures r.id < first {
        assert ops[0].Mentions(r);
      }
    }
  }

  // ----- the live ranges of all registers in all blocks

  /** Registers that occur in the code, besides those given. */
  function Mentioned(c: code, also: set<Reg>): (s: set<Reg>)
    ensures also <= s
    ensures forall k, r :: 0 <= k < |c| && c[k].op.Mentions(r) ==> r in s
    ensures forall r :: r in s ==> r in also || exists k :: 0 <= k < |c| && c[k].op.Mentions(r)
  {
    if c == [] then also
    else
      var op := c[0].op;
      var rest := Mentioned(c[1..], also);
      assert forall k, r :: 0 < k < |c| && c[k].op.Mentions(r) ==> c[1..][k - 1].op.Mentions(r);
      assert forall k, r :: 0 <= k < |c[1..]| && c[1..][k].op.Mentions(r) ==> c[k + 1].op.Mentions(r);
      rest + (set r | r in op.Ins()) + (set r | r in op.Outs()) + op.Clobbers()
  }

  /** The pieces of block b cover exactly what its ordinary registers need. */
  ghost predicate ExactPieces(x: Special, b: int, c: code, out: set<Reg>, pieces: set<Piece>) {
    c != [] && forall r, t {:trigger PieceCovers(pieces, b, r, t)} :: 0.0 <= t && Ordinary(x, r) ==>
      (PieceCovers(pieces, b, r, t) <==> Needed(c, r, r in out, LastPos(c) + 1.0, t))
  }

  ghost predicate PiecesOf(x: Special, bodies: seq<Body>, first: nat, pieces: set<Piece>) {
    forall p :: p in pieces ==> 0 <= p.block < |bodies| && Ordinary(x, p.reg) && p.reg.id < first && p.range.begin <= p.range.end
  }

  /** The same for the registers done so far. */
  ghost predicate PiecesFor(done: set<Reg>, b: int, c: code, out: set<Reg>, pieces: set<Piece>)
    requires c != []
  {
    && (forall p :: p in pieces && p.block == b ==> p.reg in done)
    && forall r, t {:trigger PieceCovers(pieces, b, r, t)} :: 0.0 <= t && r in done ==>
         (PieceCovers(pieces, b, r, t) <==> Needed(c, r, r in out, LastPos(c) + 1.0, t))
  }

  lemma PiecesAdded(done: set<Reg>, b: int, c: code, out: set<Reg>, pieces: set<Piece>, r: Reg, rs: seq<Range>)
    requires c != [] && PiecesFor(done, b, c, out, pieces) && r !in done
    requires forall t {:trigger Covered(rs, t)} :: 0.0 <= t ==> (Covered(rs, t) <==> Needed(c, r, r in out, LastPos(c) + 1.0, t))
    ensures PiecesFor(done + {r}, b, c, out, pieces + RangePieces(b, r, rs))
  {
    var more := pieces + RangePieces(b, r, rs);
    forall q, t {:trigger PieceCovers(more, b, q, t)} | 0.0 <= t && q in done + {r}
      ensures PieceCovers(more, b, q, t) <==> Needed(c, q, q in out, LastPos(c) + 1.0, t)
    {
      if q == r {
        if PieceCovers(more, b, q, t) {
          var p :| p in more && p.block == b && p.reg == q && p.range.Covers(t);
          assert p in RangePieces(b, r, rs);
          var i :| 0 <= i < |rs| && p == Piece(b, r, rs[i]);
          assert Covered(rs, t);
        }
        if Covered(rs, t) {
          var i :| 0 <= i < |rs| && rs[i].Covers(t);
          assert Piece(b, r, rs[i]) in more;
        }
      } else {
        assert PieceCovers(more, b, q, t) <==> PieceCovers(pieces, b, q, t);
      }
    }
  }

  function RangePieces(b: int, r: Reg, rs: seq<Range>): set<Piece> { set i | 0 <= i < |rs| :: Piece(b, r, rs[i]) }

  /** One of the ranges that the walk through block b records. */
  ghost predicate Recorded(x: Special, b: int, c: code, out: set<Reg>, q: Piece)
    requires c != []
  {
    q.block == b && Ordinary(x, q.reg) && q.range in RangesOf(c, q.reg, q.reg in out)
  }

  /** No ordinary register outlives an instruction that only clobbers it. */
  ghost predicate ClobbersFine(x: Special, c: code, out: set<Reg>) { forall r :: Ordinary(x, r) ==> ClobbersDead(c, r, r in out) }

  /** All ranges of all blocks, and no others. */
  ghost predicate AllRecorded(x: Special, bodies: seq<Body>, outs: seq<set<Reg>>, pieces: set<Piece>) {
    && |outs| == |bodies| && (forall b :: 0 <= b < |bodies| ==> bodies[b].code != [])
    && forall q :: q in pieces <==> 0 <= q.block < |bodies| && Recorded(x, q.block, bodies[q.block].code, outs[q.block], q)
  }

  ghost predicate RecordedFor(x: Special, done: set<Reg>, b: int, c: code, out: set<Reg>, pieces: set<Piece>)
    requires c != []
  {
    forall q :: q in pieces <==> q.reg in done && Recorded(x, b, c, out, q)
  }

  lemma RecordedMore(x: Special, done: set<Reg>, b: int, c: code, out: set<Reg>, pieces: set<Piece>, r: Reg, rs: seq<Range>)
    requires c != [] && RecordedFor(x, done, b, c, out, pieces) && r !in done && Ordinary(x, r) && rs == RangesOf(c, r, r in out)
    ensures RecordedFor(x, done + {r}, b, c, out, pieces + RangePieces(b, r, rs))
  {
    hide RangesOf;
    var more := pieces + RangePieces(b, r, rs);
    forall q ensures q in more <==> q.reg in done + {r} && Recorded(x, b, c, out, q) {
      if q.reg == r && Recorded(x, b, c, out, q) {
        var i :| 0 <= i < |rs| && rs[i] == q.range;
        assert Piece(b, r, rs[i]) == q;
      }
    }
  }

  lemma RecordedAll(x: Special, regs: set<Reg>, b: int, c: code, out: set<Reg>, pieces: set<Piece>)
    requires c != [] && RecordedFor(x, regs, b, c, out, pieces) && regs == set r | r in Mentioned(c, out) && r !in x.always && r !in x.never
    requires forall r :: r in regs ==> ClobbersDead(c, r, r in out)
    ensures forall q :: q in pieces <==> Recorded(x, b, c, out, q)
    ensures ClobbersFine(x, c, out)
  {
    hide RangesOf;
    forall r | Ordinary(x, r) && r !in regs ensures RangesOf(c, r, r in out) == [] && ClobbersDead(c, r, r in out) { NoRanges(c, r); }
  }

  lemma AllMentioned(x: Special, b: int, c: code, out: set<Reg>, regs: set<Reg>, pieces: set<Piece>)
    requires c != [] && PiecesFor(regs, b, c, out, pieces) && regs == set r | r in Mentioned(c, out) && r !in x.always && r !in x.never
    ensures ExactPieces(x, b, c, out, pieces)
  {
    forall r, t {:trigger PieceCovers(pieces, b, r, t)} | 0.0 <= t && Ordinary(x, r)
      ensures PieceCovers(pieces, b, r, t) <==> Needed(c, r, r in out, LastPos(c) + 1.0, t)
    {
      if r !in regs {
        if Needed(c, r, r in out, LastPos(c) + 1.0, t) { NeededOccurs(c, r, r in out, LastPos(c) + 1.0, t); }
      }
    }
  }

  lemma OtherBlockPieces(x: Special, b: int, c: code, out: set<Reg>, pieces: set<Piece>, more: set<Piece>)
    requires c != [] && ExactPieces(x, b, c, out, pieces) && forall p :: p in more ==> p.block != b
    ensures ExactPieces(x, b, c, out, pieces + more)
  {
    forall r, t {:trigger PieceCovers(pieces + more, b, r, t)} | 0.0 <= t && Ordinary(x, r)
      ensures PieceCovers(pieces + more, b, r, t) <==> Needed(c, r, r in out, LastPos(c) + 1.0, t)
    {
      assert PieceCovers(pieces + more, b, r, t) <==> PieceCovers(pieces, b, r, t);
    }
  }

  /** The ranges of one block. Fails where the source's assertion does: a register that outlives an
      instruction which clobbers it.
   */
  method BlockRanges(x: Special, b: nat, c: code, out: set<Reg>, ghost first: nat) returns (ok: bool, pieces: set<Piece>)
    requires Laid(c)
    requires (forall k :: 0 <= k < |c| ==> Below(c[k].op, first)) && forall r: Reg :: r in out ==> r.id < first
    ensures ok <==> ClobbersFine(x, c, out)
    ensures ok ==> ExactPieces(x, b, c, out, pieces) && forall q :: q in pieces <==> Recorded(x, b, c, out, q)
    ensures forall p :: p in pieces ==> p.block == b && Ordinary(x, p.reg) && p.reg.id < first && p.range.begin <= p.range.end
  {
    ok, pieces := true, {};
    var regs := set r | r in Mentioned(c, out) && r !in x.always && r !in x.never;
    var todo := regs;
    while todo != {}
      invariant todo <= regs && PiecesFor(regs - todo, b, c, out, pieces) && RecordedFor(x, regs - todo, b, c, out, pieces)
      invariant forall r :: r in regs - todo ==> ClobbersDead(c, r, r in out)
      invariant forall p :: p in pieces ==> p.block == b && p.reg in regs && p.range.begin <= p.range.end
      decreases |todo|
    {
      var r :| r in todo;
      if !ClobbersDead(c, r, r in out) {
        ok := false;
        break;
      }
      hide PiecesFor, RecordedFor, Covered, ClobbersDead, Needed, RangePieces, RangesOf;
      var rs := FillLiveRanges(c, r in out, r);
      RecordedMore(x, regs - todo, b, c, out, pieces, r, rs);
      PiecesAdded(regs - todo, b, c, out, pieces, r, rs);
      assert regs - todo + {r} == regs - (todo - {r});
      pieces := pieces + RangePieces(b, r, rs);
      todo := todo - {r};
    }
    if ok {
      assert regs - {} == regs;
      AllMentioned(x, b, c, out, regs, pieces);
      RecordedAll(x, regs, b, c, out, pieces);
    }
    forall p | p in pieces ensures p.reg.id < first {
      if p.reg !in out {
        var k :| 0 <= k < |c| && c[k].op.Mentions(p.reg);
        assert Below(c[k].op, first);
      }
    }
  }

  method BuildRanges(x: Special, bodies: seq<Body>, outs: seq<set<Reg>>, ghost first: nat) returns (ok: bool, pieces: set<Piece>)
    requires |outs| == |bodies| && forall b :: 0 <= b < |bodies| ==> Laid(bodies[b].code)
    requires forall b, k :: 0 <= b < |bodies| && 0 <= k < |bodies[b].code| ==> Below(bodies[b].code[k].op, first)
    requires forall b, r: Reg :: 0 <= b < |bodies| && r in outs[b] ==> r.id < first
    ensures PiecesOf(x, bodies, first, pieces)
    ensures ok ==> forall b :: 0 <= b < |bodies| ==> ExactPieces(x, b, bodies[b].code, outs[b], pieces)
    ensures ok ==> CoversNeeds(x, bodies, outs, pieces) && AllRecorded(x, bodies, outs, pieces)
    ensures ok <==> forall b :: 0 <= b < |bodies| ==> ClobbersFine(x, bodies[b].code, outs[b])
  {
    ok, pieces := true, {};
    for b := 0 to |bodies|
      invariant forall p :: p in pieces ==> 0 <= p.block < b && Ordinary(x, p.reg) && p.reg.id < first && p.range.begin <= p.range.end
      invariant ok ==> forall q :: 0 <= q < b ==> ExactPieces(x, q, bodies[q].code, outs[q], pieces)
      invariant ok ==> RecordedUpto(x, bodies, outs, b, pieces)
      invariant ok <==> forall q :: 0 <= q < b ==> ClobbersFine(x, bodies[q].code, outs[q])
    {
      assert bodies[b].code != [];
      hide ExactPieces, Laid, Below, ClobbersFine, Recorded;
      var fine, more := BlockRanges(x, b, bodies[b].code, outs[b], first);
      if ok && fine {
        forall q | 0 <= q < b + 1 ensures ExactPieces(x, q, bodies[q].code, outs[q], pieces + more) {
          if q < b { OtherBlockPieces(x, q, bodies[q].code, outs[q], pieces, more); } else { OwnPieces(x, b, bodies[b].code, outs[b], more, pieces); }
        }
      }
      ok := ok && fine;
      pieces := pieces + more;
    }
    if ok {
      ExactCovers(x, bodies, outs, pieces);
      assert forall b :: 0 <= b < |bodies| ==> Laid(bodies[b].code);
    }
  }

  ghost predicate RecordedUpto(x: Special, bodies: seq<Body>, outs: seq<set<Reg>>, n: int, pieces: set<Piece>)
    requires n <= |bodies| == |outs|
  {
    && (forall b :: 0 <= b < |bodies| ==> bodies[b].code != [])
    && forall q :: q in pieces <==> 0 <= q.block < n && Recorded(x, q.block, bodies[q.block].code, outs[q.block], q)
  }

  lemma OwnPieces(x: Special, b: int, c: code, out: set<Reg>, pieces: set<Piece>, others: set<Piece>)
    requires c != [] && ExactPieces(x, b, c, out, pieces) && forall p :: p in others ==> p.block != b
    ensures ExactPieces(x, b, c, out, others + pieces)
  {
    assert others + pieces == pieces + others;
    OtherBlockPieces(x, b, c, out, pieces, others);
  }

  lemma ExactCovers(x: Special, bodies: seq<Body>, outs: seq<set<Reg>>, pieces: set<Piece>)
    requires |outs| == |bodies| && forall b :: 0 <= b < |bodies| ==> Laid(bodies[b].code)
    requires forall b :: 0 <= b < |bodies| ==> ExactPieces(x, b, bodies[b].code, outs[b], pieces)
    ensures CoversNeeds(x, bodies, outs, pieces)
  {
    forall b | 0 <= b < |bodies| ensures CoversBlock(x, b, bodies[b].code, outs[b], pieces) {
      var c := bodies[b].code;
      assert ExactPieces(x, b, c, outs[b], pieces);
      forall r, t | 0.0 <= t && Ordinary(x, r) && Needed(c, r, r in outs[b], LastPos(c), t) ensures PieceCovers(pieces, b, r, t) {
        NeededSooner(c, r, r in outs[b], LastPos(c), LastPos(c) + 1.0, t);
      }
    }
  }
}
