/** Spilling a register in a whole function, any number of times. */
module SpilledFunction {
  import opened Liveness
  import opened Operations
  import opened LiveRanges
  import opened Coloring
  import opened Spilling

  // ----- a register handed back by the function is reloaded before the return

  /** p before the last instruction. */
  function Delivered(c: code, p: Placed): code
    requires c != []
  {
    if |c| == 1 then [p] + c else [c[0]] + Delivered(c[1..], p)
  }

  /** Between the last two instructions. */
  ghost predicate JustBefore(c: code, p: Placed)
    requires c != []
  {
    PosBefore(c, |c| - 1) < p.pos < LastPos(c)
  }

  lemma JustBeforeTail(c: code, p: Placed)
    requires |c| > 1 && JustBefore(c, p)
    ensures |c| > 2 ==> JustBefore(c[1..], p)
    ensures LastPos(c[1..]) == LastPos(c)
    ensures |c| == 2 ==> c[0].pos < p.pos < c[1].pos
  {
  }

  lemma {:induction false} DeliveredShape(c: code, p: Placed, floor: real)
    requires c != [] && Increasing(c, floor) && (|c| > 1 ==> JustBefore(c, p)) && floor < p.pos < LastPos(c)
    ensures Delivered(c, p) != [] && Increasing(Delivered(c, p), floor)
    ensures Delivered(c, p)[|Delivered(c, p)| - 1] == c[|c| - 1]
    ensures forall k :: 0 <= k < |Delivered(c, p)| ==> Delivered(c, p)[k] == p || Delivered(c, p)[k] in c
  {
    if |c| == 1 {
      PushIncreasing(p, c, floor, floor);
    } else {
      var d := Delivered(c[1..], p);
      JustBeforeTail(c, p);
      AfterFirst(c, p, floor);
      DeliveredShape(c[1..], p, c[0].pos);
      PushIncreasing(c[0], d, c[0].pos, floor);
      LastAfter(c[0], d);
      forall k | 0 <= k < |[c[0]] + d| ensures ([c[0]] + d)[k] == p || ([c[0]] + d)[k] in c {
        if k > 0 { assert ([c[0]] + d)[k] == d[k - 1]; }
      }
    }
  }

  lemma AfterFirst(c: code, p: Placed, floor: real)
    requires |c| > 1 && Increasing(c, floor) && JustBefore(c, p)
    ensures c[0].pos < p.pos && (Delivered(c[1..], p) != [] ==> c[0].pos < Delivered(c[1..], p)[0].pos)
    ensures Delivered(c[1..], p) != []
  {
    IncreasingAt(c, floor, |c| - 2);
    FirstBelow(c, floor, |c| - 2);
  }

  lemma {:induction false} FirstBelow(c: code, floor: real, k: nat)
    requires k < |c| && Increasing(c, floor)
    ensures c[0].pos <= c[k].pos
  {
    if k > 0 { FirstBelow(c[1..], c[0].pos, k - 1); }
  }

  lemma SameSelf(c: code, v: Reg)
    ensures SameFor(c, c, v)
  {
  }

  lemma {:induction false} DeliveredSame(c: code, p: Placed, v: Reg)
    requires c != [] && p.pos < LastPos(c) && !p.op.Mentions(v)
    ensures SameFor(Delivered(c, p), c, v)
  {
    if |c| == 1 {
      SameSelf(c, v);
      SameExtra(c, c, v, p);
    } else {
      DeliveredSame(c[1..], p, v);
      assert [c[0]] + c[1..] == c;
      SameCons(Delivered(c[1..], p), c[1..], v, c[0], c[0]);
    }
  }

  lemma {:induction false} DeliveredOriginal(og: Reg -> Reg, c: code, p: Placed)
    requires c != [] && !p.op.Plain?
    ensures Original(og, Delivered(c, p)) == Original(og, c)
  {
    var d := Delivered(c, p);
    if |c| == 1 {
      assert d[1..] == c;
    } else {
      DeliveredOriginal(og, c[1..], p);
      assert d[1..] == Delivered(c[1..], p);
    }
  }

  lemma {:induction false} DeliveredSound(og: Reg -> Reg, c: code, p: Placed, a: iset<Loc>)
    requires c != [] && c[|c| - 1].op.Quiet() && p.op.Reload?
    requires Sound(og, c, a) && OnStack(p.op.slot) in Final(og, c, a)
    ensures Sound(og, Delivered(c, p), a) && Final(og, c, a) + iset{InReg(p.op.reg)} <= Final(og, Delivered(c, p), a)
  {
    if |c| == 1 {
      var last := c[0];
      assert c == [last] + [];
      SoundCons(og, last, [], a);
      QuietAfter(og, last.op, a);
      SoundCons(og, p, c, a);
      SoundCons(og, last, [], After(og, p.op, a));
      QuietAfter(og, last.op, After(og, p.op, a));
      AfterGrows(og, last.op, a, After(og, p.op, a));
    } else {
      DeliveredSound(og, c[1..], p, After(og, c[0].op, a));
      SoundCons(og, c[0], Delivered(c[1..], p), a);
    }
  }

  lemma QuietAfter(og: Reg -> Reg, op: Op, a: iset<Loc>)
    requires op.Quiet()
    ensures After(og, op, a) == a
  {
  }

  /** The register is not wanted before its reload, and needed only from there to the last instruction. */
  lemma {:induction false} DeliveredNeeded(c: code, p: Placed, r: Reg, t: real)
    requires c != [] && p.op.Reload? && p.op.reg == r && p.pos < LastPos(c)
    requires (forall k :: 0 <= k < |c| ==> !c[k].op.Mentions(r)) && (|c| > 1 ==> JustBefore(c, p))
    ensures !Wanted(Delivered(c, p), r, true)
    ensures Needed(Delivered(c, p), r, true, LastPos(c), t) ==> p.pos <= t < LastPos(c)
    ensures NoDead(Delivered(c, p), r, true)
  {
    if |c| == 1 {
      DeliveredLast(c, p, r, t);
    } else {
      JustBeforeTail(c, p);
      assert !c[0].op.Mentions(r);
      DeliveredNeeded(c[1..], p, r, t);
      var d := Delivered(c[1..], p);
      WantedCons(c[0], d, r, true);
      NeededCons(c[0], d, r, true, LastPos(c), t);
      assert ([c[0]] + d)[1..] == d;
      assert NoDead([c[0]] + d, r, true);
    }
  }

  lemma DeliveredLast(c: code, p: Placed, r: Reg, t: real)
    requires |c| == 1 && p.op.Reload? && p.op.reg == r && p.pos < c[0].pos && !c[0].op.Mentions(r)
    ensures !Wanted([p] + c, r, true) && NoDead([p] + c, r, true)
    ensures Needed([p] + c, r, true, c[0].pos, t) ==> p.pos <= t < c[0].pos
  {
    assert ([p] + c)[1..] == c && c[1..] == [];
    assert Wanted(c, r, true);
    WantedCons(p, c, r, true);
    NeededCons(p, c, r, true, c[0].pos, t);
  }

  lemma {:induction false} NeverNeeded(c: code, r: Reg, stop: real, t: real)
    requires forall k :: 0 <= k < |c| ==> !c[k].op.Mentions(r)
    ensures !Wanted(c, r, false) && !Needed(c, r, false, stop, t) && NoDead(c, r, false)
  {
    if c != [] {
      forall k | 0 <= k < |c[1..]| ensures !c[1..][k].op.Mentions(r) { assert c[1..][k] == c[k + 1]; }
      assert !c[0].op.Mentions(r);
      NeverNeeded(c[1..], r, stop, t);
    }
  }

  // ----- one block of the function

  ghost predicate OpFine(max: int, og: Reg -> Reg, unused: nat, op: Op) {
    && GoodOp(og, op) && ClobbersKept(og, op) && Below(op, unused) && forall q :: q in op.Clobbers() ==> Physical(max, q)
  }

  ghost predicate BlockFine(max: int, og: Reg -> Reg, unused: nat, c: code) {
    Laid(c) && forall k :: 0 <= k < |c| ==> OpFine(max, og, unused, c[k].op)
  }

  /** A range of a fresh register, or of the register itself from its reload to the return. */
  ghost predicate PieceFine(t: Task, deliver: bool, next: nat, q: Piece) {
    && q.block == t.block && q.range.begin <= q.range.end
    && ((deliver && q.reg == t.r) || t.unused <= q.reg.id < next)
  }

  /** What a block's rewriting promises: the same work from the slot, and ranges for all that is new. */
  ghost predicate BlockSpilled(max: int, og: Reg -> Reg, t: Task, deliver: bool, next: nat, c: code, c': code, ranges: seq<Piece>)
    requires c != []
  {
    && BlockFine(max, og, next, c') && LastPos(c') == LastPos(c) && t.unused <= next
    && Original(og, c') == Original(og, c) && Provides(og, t, deliver, c, c')
    && Others(t, c', c)
    && (forall n {:trigger Replacing(t, n)} :: Replacing(t, n) ==> NewFine(c', LastPos(c), ranges, n, false))
    && NewFine(c', LastPos(c), ranges, t.r, deliver)
    && forall i :: 0 <= i < |ranges| ==> PieceFine(t, deliver, next, ranges[i])
  }

  ghost predicate Provides(og: Reg -> Reg, t: Task, deliver: bool, c: code, c': code) {
    forall a {:trigger SoundTo(og, t, c, a)} :: SoundTo(og, t, c, a) ==>
      var b := Carried(t, a, Demand(t, Wanted(c, t.r, t.out), false, t.r));
      && Sound(og, c', b) && Carried(t, Final(og, c, a), Demand(t, t.out, false, t.r)) <= Final(og, c', b)
      && (deliver ==> InReg(t.r) in Final(og, c', b))
  }

  /** Not wanted at the beginning, covered by the ranges, and never written in vain. */
  ghost predicate NewFine(c: code, stop: real, ranges: seq<Piece>, n: Reg, end: bool) {
    && !Wanted(c, n, end) && NoDead(c, n, end)
    && forall at {:trigger Needed(c, n, end, stop, at)} :: Needed(c, n, end, stop, at) ==> RangeOf(ranges, n, at)
  }

  lemma WalkProvides(og: Reg -> Reg, t: Task, c: code, w: Walk)
    requires Rewrites(og, t, w.tail, c, Demand(t, w.want, false, w.cur)) && w.want == Wanted(c, t.r, t.out)
    ensures Provides(og, t, false, c, w.tail)
  {
    assert Demand(t, w.want, false, w.cur) == Demand(t, Wanted(c, t.r, t.out), false, t.r);
    hide Wanted, Sound, Final, Demand, Carried;
  }

  lemma WalkFine(max: int, og: Reg -> Reg, t: Task, c: code, w: Walk)
    requires c != [] && Shape(max, og, t, 0.0, c, w)
    ensures BlockFine(max, og, w.next, w.tail) && LastPos(w.tail) == LastPos(c) && t.unused <= w.next
    ensures forall k :: 0 <= k < |w.tail| ==> !w.tail[k].op.Mentions(t.r)
    ensures forall i :: 0 <= i < |w.ranges| ==> PieceFine(t, false, w.next, w.ranges[i])
  {
    hide Increasing;
    forall k | 0 <= k < |w.tail| ensures OpFine(max, og, w.next, w.tail[k].op) && !w.tail[k].op.Mentions(t.r) {
      assert OpOk(max, og, t, w.next, w.tail[k].op);
    }
    forall i | 0 <= i < |w.ranges| ensures PieceFine(t, false, w.next, w.ranges[i]) {
      assert RangeOk(t, w.next, w.ranges[i]);
    }
    hide OpOk, OpFine, RangeOk, PieceFine;
  }

  lemma NeverFine(c: code, stop: real, ranges: seq<Piece>, r: Reg)
    requires forall k :: 0 <= k < |c| ==> !c[k].op.Mentions(r)
    ensures NewFine(c, stop, ranges, r, false)
  {
    NeverNeeded(c, r, stop, 0.0);
    forall at: real ensures !Needed(c, r, false, stop, at) {
      NeverNeeded(c, r, stop, at);
    }
  }

  lemma WalkSpilled(max: int, og: Reg -> Reg, t: Task, c: code, w: Walk)
    requires c != [] && Link(max, og, t, LastPos(c), 0.0, c, w) && !w.have
    ensures BlockSpilled(max, og, t, false, w.next, c, w.tail, w.ranges)
  {
    forall n | Replacing(t, n) ensures NewFine(w.tail, LastPos(c), w.ranges, n, false) {
      assert ReplacedBy(t, LastPos(c), w, n);
    }
    hide Wanted, NewFine, Provides, Rewrites, Others, Replaced, Shape, BlockFine, PieceFine;
    WalkFine(max, og, t, c, w);
    WalkProvides(og, t, c, w);
    NeverFine(w.tail, LastPos(c), w.ranges, t.r);
    RewritesOriginal(og, t, w.tail, c, Demand(t, w.want, false, w.cur));
  }

  lemma RewritesOriginal(og: Reg -> Reg, t: Task, tail: code, s: code, d: iset<Loc>)
    requires Rewrites(og, t, tail, s, d)
    ensures Original(og, tail) == Original(og, s)
  {
  }

  /** The reload of a register that the function hands back, in a block that returns. */
  lemma DeliverSpilled(max: int, og: Reg -> Reg, t: Task, next: nat, c: code, c1: code, ranges: seq<Piece>, p: Placed)
    requires c != [] && BlockSpilled(max, og, t, false, next, c, c1, ranges) && t.out && t.r == t.home && Stems(og, t)
    requires (forall k :: 0 <= k < |c1| ==> !c1[k].op.Mentions(t.r)) && PosBefore(c1, |c1| - 1) < p.pos < LastPos(c1)
    requires p.op == Reload(t.r, t.home)
    ensures BlockSpilled(max, og, t, true, next, c, Delivered(c1, p), ranges + [Piece(t.block, t.r, Range(p.pos, LastPos(c)))])
  {
    var c2, more := Delivered(c1, p), ranges + [Piece(t.block, t.r, Range(p.pos, LastPos(c)))];
    LastOf(c1, p);
    DeliveredOriginal(og, c1, p);
    DeliveredFine(max, og, t, next, c1, p);
    DeliveredProvides(og, t, c, c1, p);
    forall n | Replacing(t, n) ensures NewFine(c2, LastPos(c), more, n, false) {
      assert NewFine(c1, LastPos(c), ranges, n, false);
      DeliveredReplacing(t, c1, p, LastPos(c), ranges, more[|ranges|], n);
    }
    hide Delivered, NewFine, Provides, Others, BlockFine, SameFor, Original, Laid;
    DeliveredOthers(t, c, c1, p);
    DeliveredNew(c1, p, t, ranges);
    forall i | 0 <= i < |more| ensures PieceFine(t, true, next, more[i]) {
      if i < |ranges| { assert more[i] == ranges[i]; }
    }
  }

  lemma DeliveredOthers(t: Task, c: code, c1: code, p: Placed)
    requires c1 != [] && p.pos < LastPos(c1) && p.op == Reload(t.r, t.home) && Others(t, c1, c)
    ensures Others(t, Delivered(c1, p), c)
  {
    forall v | v != t.r && v.id < t.unused ensures SameFor(Delivered(c1, p), c, v) {
      assert SameFor(c1, c, v);
      DeliveredSame(c1, p, v);
      SameTrans(Delivered(c1, p), c1, c, v);
    }
  }

  lemma DeliveredReplacing(t: Task, c: code, p: Placed, stop: real, ranges: seq<Piece>, q: Piece, n: Reg)
    requires c != [] && p.pos < LastPos(c) && p.op == Reload(t.r, t.home) && n != t.r && NewFine(c, stop, ranges, n, false)
    ensures NewFine(Delivered(c, p), stop, ranges + [q], n, false)
  {
    hide NewFine, Delivered, SameFor;
    DeliveredSame(c, p, n);
    NewSame(Delivered(c, p), c, stop, ranges, q, n);
  }

  lemma LastOf(c: code, p: Placed)
    requires Laid(c) && PosBefore(c, |c| - 1) < p.pos < LastPos(c)
    ensures Delivered(c, p) != [] && LastPos(Delivered(c, p)) == LastPos(c)
  {
    IncreasingAt(c, 0.0, |c| - 1);
    if |c| > 1 { IncreasingAt(c, 0.0, |c| - 2); }
    DeliveredShape(c, p, 0.0);
  }

  lemma DeliveredFine(max: int, og: Reg -> Reg, t: Task, next: nat, c: code, p: Placed)
    requires BlockFine(max, og, next, c) && PosBefore(c, |c| - 1) < p.pos < LastPos(c) && p.op == Reload(t.r, t.home)
    requires Stems(og, t) && t.unused <= next
    ensures BlockFine(max, og, next, Delivered(c, p))
  {
    IncreasingAt(c, 0.0, |c| - 1);
    if |c| > 1 { IncreasingAt(c, 0.0, |c| - 2); }
    DeliveredShape(c, p, 0.0);
    assert OpFine(max, og, next, p.op);
    var d := Delivered(c, p);
    forall k | 0 <= k < |d| ensures OpFine(max, og, next, d[k].op) {
      if d[k] != p {
        var j :| 0 <= j < |c| && c[j] == d[k];
      }
    }
    hide OpFine;
  }

  lemma SameTrans(a: code, b: code, c: code, v: Reg)
    requires SameFor(a, b, v) && SameFor(b, c, v)
    ensures SameFor(a, c, v)
  {
    forall e ensures Wanted(a, v, e) == Wanted(c, v, e) {
      assert Wanted(a, v, e) == Wanted(b, v, e);
    }
  }

  lemma NewSame(a: code, b: code, stop: real, ranges: seq<Piece>, q: Piece, n: Reg)
    requires SameFor(a, b, n) && NewFine(b, stop, ranges, n, false)
    ensures NewFine(a, stop, ranges + [q], n, false)
  {
    assert Wanted(a, n, false) == Wanted(b, n, false);
    forall at {:trigger Needed(a, n, false, stop, at)} | Needed(a, n, false, stop, at) ensures RangeOf(ranges + [q], n, at) {
      assert Needed(b, n, false, stop, at);
      RangeAppend(ranges, q, n, at);
    }
  }

  lemma DeliveredNew(c: code, p: Placed, t: Task, ranges: seq<Piece>)
    requires Laid(c) && p.op == Reload(t.r, t.home) && PosBefore(c, |c| - 1) < p.pos < LastPos(c)
    requires forall k :: 0 <= k < |c| ==> !c[k].op.Mentions(t.r)
    ensures NewFine(Delivered(c, p), LastPos(c), ranges + [Piece(t.block, t.r, Range(p.pos, LastPos(c)))], t.r, true)
  {
    var q := Piece(t.block, t.r, Range(p.pos, LastPos(c)));
    DeliveredNeeded(c, p, t.r, 0.0);
    forall at {:trigger Needed(Delivered(c, p), t.r, true, LastPos(c), at)} | Needed(Delivered(c, p), t.r, true, LastPos(c), at)
      ensures RangeOf(ranges + [q], t.r, at)
    {
      DeliveredNeeded(c, p, t.r, at);
      RangeAppend(ranges, q, t.r, at);
    }
  }

  lemma DeliveredProvides(og: Reg -> Reg, t: Task, c: code, c1: code, p: Placed)
    requires Provides(og, t, false, c, c1) && Laid(c1) && p.op == Reload(t.r, t.home) && t.out
    ensures Provides(og, t, true, c, Delivered(c1, p))
  {
    forall a {:trigger SoundTo(og, t, c, a)} | SoundTo(og, t, c, a)
      ensures var b := Carried(t, a, Demand(t, Wanted(c, t.r, t.out), false, t.r)); var c2 := Delivered(c1, p);
        Sound(og, c2, b) && Carried(t, Final(og, c, a), Demand(t, t.out, false, t.r)) <= Final(og, c2, b) && InReg(t.r) in Final(og, c2, b)
    {
      assert OnStack(t.home) in Carried(t, Final(og, c, a), Demand(t, t.out, false, t.r));
      DeliveredSound(og, c1, p, Carried(t, a, Demand(t, Wanted(c, t.r, t.out), false, t.r)));
    }
  }

  // ----- the whole function

  /** The prologue runs before block 0. */
  datatype Fn = Fn(prologue: code, bodies: seq<Body>)

  /** What is known of a function in the course of the spilling: from which original each register
      stems, what is available at the beginning of each block, what is live at the block
      boundaries, where the registers begin that are not original, and where those begin that are
      not used yet, and which registers are stored or reloaded at the function's boundaries.
   */
  datatype View = View(og: Reg -> Reg, avail: seq<iset<Loc>>, ins: seq<set<Reg>>, outs: seq<set<Reg>>, first: nat, unused: nat, stored: set<Reg>)

  ghost predicate BelowSet(a: iset<Loc>, n: nat) { forall l: Loc :: l in a && l.InReg? ==> l.reg.id < n }

  /** On entry every original register holds its own value. */
  ghost function Everything(first: nat): iset<Loc> { iset l: Loc | l.InReg? && l.reg.id < first }

  ghost predicate StoresOf(c: code, stored: set<Reg>) { forall k :: 0 <= k < |c| ==> c[k].op.Store? && c[k].op.reg == c[k].op.slot && c[k].op.reg in stored }

  ghost predicate Entered(v: View, prologue: code) {
    && v.avail != [] && StoresOf(prologue, v.stored) && (forall q: Reg :: q in v.stored ==> q.id < v.first)
    && Increasing(prologue, 0.0) && Sound(v.og, prologue, Everything(v.first)) && v.avail[0] <= Final(v.og, prologue, Everything(v.first))
  }

  ghost predicate Spillable(max: int, x: Special, outputs: set<Reg>, f: Fn, v: View) {
    && Flow(x, f.bodies, outputs, v.ins, v.outs) && |v.avail| == |f.bodies| && max < v.first <= v.unused
    && (forall q: Reg :: q.id < v.first ==> v.og(q) == q) && (forall q: Reg :: q in outputs ==> q.id < v.first)
    && Entered(v, f.prologue)
    && forall b :: 0 <= b < |f.bodies| ==> BlockSpillable(max, f.bodies, v, b)
  }

  ghost predicate BlockSpillable(max: int, bodies: seq<Body>, v: View, b: int)
    requires Linked(bodies) && |v.avail| == |v.ins| == |v.outs| == |bodies| && 0 <= b < |bodies|
  {
    var c, a := bodies[b].code, v.avail[b];
    && BlockFine(max, v.og, v.unused, c) && Sound(v.og, c, a) && BelowSet(a, v.unused)
    && (forall i :: 0 <= i < |bodies[b].succ| ==> v.avail[bodies[b].succ[i]] <= Final(v.og, c, a))
    && (forall q: Reg :: q in v.ins[b] + v.outs[b] ==> q.id < v.first)
    && (forall q :: q in v.outs[b] ==> InReg(q) in Final(v.og, c, a))
    && forall q: Reg :: q.id >= v.first ==> NoDead(c, q, false)
  }

  /** Without stores and reloads, and on the original registers, the blocks are these. */
  ghost predicate Computes(og: Reg -> Reg, bodies: seq<Body>, orig: seq<Body>) {
    && |bodies| == |orig|
    && forall b :: 0 <= b < |orig| ==> bodies[b].succ == orig[b].succ && Original(og, bodies[b].code) == Original(Itself(), orig[b].code)
  }

  function Itself(): Reg -> Reg { r => r }

  // ----- registers from unused on are taken for replacements of the next spilled register

  function Stemming(og: Reg -> Reg, unused: nat, home: Reg): Reg -> Reg { (q: Reg) => if q.id >= unused then home else og(q) }

  lemma RebaseOp(og: Reg -> Reg, unused: nat, home: Reg, op: Op, a: iset<Loc>)
    requires Below(op, unused) && BelowSet(a, unused)
    ensures var og' := Stemming(og, unused, home); After(og', op, a) == After(og, op, a) && BelowSet(After(og, op, a), unused)
  {
    var og' := Stemming(og, unused, home);
    forall h ensures Kills(og', op, h) <==> Kills(og, op, h) {
      if Kills(og, op, h) { var d :| op.Writes(d) && og(d) == h; assert og'(d) == h; }
      if Kills(og', op, h) { var d :| op.Writes(d) && og'(d) == h; assert og(d) == h; }
    }
  }

  lemma {:induction false} Rebase(og: Reg -> Reg, unused: nat, home: Reg, c: code, a: iset<Loc>)
    requires (forall k :: 0 <= k < |c| ==> Below(c[k].op, unused)) && BelowSet(a, unused)
    ensures var og' := Stemming(og, unused, home);
      && (Sound(og', c, a) <==> Sound(og, c, a)) && Final(og', c, a) == Final(og, c, a) && BelowSet(Final(og, c, a), unused)
      && Original(og', c) == Original(og, c)
  {
    if c != [] {
      RebaseOp(og, unused, home, c[0].op, a);
      if c[0].op.Plain? { RebaseSubstitute(og, unused, home, c[0].op); }
      forall k | 0 <= k < |c[1..]| ensures Below(c[1..][k].op, unused) { assert c[1..][k] == c[k + 1]; }
      hide After, Below, Stemming, BelowSet;
      Rebase(og, unused, home, c[1..], After(og, c[0].op, a));
    }
  }

  lemma RebaseSubstitute(og: Reg -> Reg, unused: nat, home: Reg, op: Op)
    requires Below(op, unused) && op.Plain?
    ensures op.Substitute(Stemming(og, unused, home)) == op.Substitute(og)
  {
    assert Renamed(op.ins, Stemming(og, unused, home)) == Renamed(op.ins, og);
    assert Renamed(op.outs, Stemming(og, unused, home)) == Renamed(op.outs, og);
  }

  lemma RebaseFine(max: int, og: Reg -> Reg, unused: nat, home: Reg, op: Op)
    requires OpFine(max, og, unused, op)
    ensures OpFine(max, Stemming(og, unused, home), unused, op)
  {
  }

  // ----- one spilled block keeps the view

  function TaskAt(v: View, r: Reg, b: int): Task
    requires 0 <= b < |v.outs|
  {
    Task(r, v.og(r), b, r in v.outs[b], v.unused)
  }

  predicate Delivers(outputs: set<Reg>, body: Body, r: Reg) { r in outputs && body.succ == [] }

  ghost function NextView(v: View, bodies: seq<Body>, outputs: set<Reg>, r: Reg, next: nat, boundary: bool): (n: View)
    requires |v.avail| == |v.ins| == |v.outs| == |bodies|
    ensures |n.avail| == |n.ins| == |n.outs| == |bodies|
  {
    View(Stemming(v.og, v.unused, v.og(r)),
         seq(|bodies|, b requires 0 <= b < |bodies| => Carried(TaskAt(v, r, b), v.avail[b], Demand(TaskAt(v, r, b), r in v.ins[b], false, r))),
         seq(|bodies|, b requires 0 <= b < |bodies| => v.ins[b] - {r}),
         seq(|bodies|, b requires 0 <= b < |bodies| => if Delivers(outputs, bodies[b], r) then v.outs[b] else v.outs[b] - {r}),
         v.first, next, if boundary then v.stored + {r} else v.stored)
  }

  /** The blocks of f spilled into those of g, each with its ranges. */
  ghost predicate AllSpilled(max: int, outputs: set<Reg>, bodies: seq<Body>, spilled: seq<Body>, v: View, r: Reg, next: nat, ranges: seq<seq<Piece>>) {
    && |bodies| == |spilled| == |ranges| == |v.outs|
    && forall b :: 0 <= b < |bodies| ==> SpilledAt(max, outputs, bodies, spilled, v, r, next, ranges, b)
  }

  ghost predicate SpilledAt(max: int, outputs: set<Reg>, bodies: seq<Body>, spilled: seq<Body>, v: View, r: Reg, next: nat, ranges: seq<seq<Piece>>, b: int)
    requires 0 <= b < |spilled| == |ranges| <= |bodies| == |v.outs|
  {
    && spilled[b].succ == bodies[b].succ && bodies[b].code != []
    && BlockSpilled(max, Stemming(v.og, v.unused, v.og(r)), TaskAt(v, r, b), Delivers(outputs, bodies[b], r), next,
                    bodies[b].code, spilled[b].code, ranges[b])
  }

  lemma StemsOwn(v: View, r: Reg, b: int)
    requires 0 <= b < |v.outs| && r.id < v.unused
    ensures Stems(Stemming(v.og, v.unused, v.og(r)), TaskAt(v, r, b))
  {
  }

  /** What the spilled block makes of what was available. */
  lemma SpilledSound(max: int, x: Special, outputs: set<Reg>, f: Fn, v: View, r: Reg, spilled: seq<Body>, ranges: seq<seq<Piece>>, next: nat, b: int)
    requires Spillable(max, x, outputs, f, v) && AllSpilled(max, outputs, f.bodies, spilled, v, r, next, ranges)
    requires 0 <= b < |f.bodies| && Ordinary(x, r) && r.id < v.unused
    ensures var n := NextView(v, f.bodies, outputs, r, next, false); var c', t := spilled[b].code, TaskAt(v, r, b);
      && Sound(n.og, c', n.avail[b])
      && Carried(t, Final(v.og, f.bodies[b].code, v.avail[b]), Demand(t, t.out, false, r)) <= Final(n.og, c', n.avail[b])
      && (Delivers(outputs, f.bodies[b], r) ==> InReg(r) in Final(n.og, c', n.avail[b]))
  {
    var n, c, c', t, a := NextView(v, f.bodies, outputs, r, next, false), f.bodies[b].code, spilled[b].code, TaskAt(v, r, b), v.avail[b];
    assert SpilledAt(max, outputs, f.bodies, spilled, v, r, next, ranges, b);
    assert BlockSpillable(max, f.bodies, v, b) && FlowAt(x, f.bodies, outputs, v.ins, v.outs, b);
    Rebase(v.og, v.unused, v.og(r), c, a);
    assert SoundTo(n.og, t, c, a);
    var b0 := Carried(t, a, Demand(t, Wanted(c, r, t.out), false, r));
    assert Sound(n.og, c', b0);
    assert b0 <= n.avail[b];
    hide Sound, Final, Carried, Demand, BlockSpillable, Flow, FlowAt, SpilledAt, AllSpilled;
    MoreAvailable(n.og, c', b0, n.avail[b]);
  }

  lemma SpilledBlock(max: int, x: Special, outputs: set<Reg>, f: Fn, v: View, r: Reg, spilled: seq<Body>, ranges: seq<seq<Piece>>, next: nat, b: int)
    requires Spillable(max, x, outputs, f, v) && AllSpilled(max, outputs, f.bodies, spilled, v, r, next, ranges)
    requires 0 <= b < |f.bodies| && Ordinary(x, r) && r.id < v.unused <= next && Linked(spilled)
    ensures BlockSpillable(max, spilled, NextView(v, f.bodies, outputs, r, next, false), b)
  {
    var n, c, c', t, a := NextView(v, f.bodies, outputs, r, next, false), f.bodies[b].code, spilled[b].code, TaskAt(v, r, b), v.avail[b];
    SpilledSound(max, x, outputs, f, v, r, spilled, ranges, next, b);
    assert SpilledAt(max, outputs, f.bodies, spilled, v, r, next, ranges, b);
    assert BlockSpillable(max, f.bodies, v, b);
    hide Sound, Final, Wanted, NoDead, Needed, BlockFine, Original, SameFor, Provides, NewFine, PieceFine, Flow;
    assert BelowSet(n.avail[b], next);
    forall i | 0 <= i < |spilled[b].succ| ensures n.avail[spilled[b].succ[i]] <= Final(n.og, c', n.avail[b]) {
      SpilledEdge(max, x, outputs, f, v, r, spilled, ranges, next, b, i);
    }
    forall q | q in n.outs[b] ensures InReg(q) in Final(n.og, c', n.avail[b]) {
      SpilledOut(max, x, outputs, f, v, r, spilled, ranges, next, b, q);
    }
    forall q: Reg | q.id >= v.first ensures NoDead(c', q, false) {
      OutputsBelow(max, x, outputs, f, v, r);
      NothingDead(max, n.og, t, Delivers(outputs, f.bodies[b], r), next, c, c', ranges[b], q);
    }
  }

  lemma SpilledEdge(max: int, x: Special, outputs: set<Reg>, f: Fn, v: View, r: Reg, spilled: seq<Body>, ranges: seq<seq<Piece>>, next: nat,
                    b: int, i: nat)
    requires Spillable(max, x, outputs, f, v) && AllSpilled(max, outputs, f.bodies, spilled, v, r, next, ranges)
    requires 0 <= b < |f.bodies| && Ordinary(x, r) && r.id < v.unused <= next && Linked(spilled)
    requires i < |spilled[b].succ|
    ensures var n := NextView(v, f.bodies, outputs, r, next, false); n.avail[spilled[b].succ[i]] <= Final(n.og, spilled[b].code, n.avail[b])
  {
    var c, t, a := f.bodies[b].code, TaskAt(v, r, b), v.avail[b];
    SpilledSound(max, x, outputs, f, v, r, spilled, ranges, next, b);
    assert SpilledAt(max, outputs, f.bodies, spilled, v, r, next, ranges, b);
    assert BlockSpillable(max, f.bodies, v, b) && FlowAt(x, f.bodies, outputs, v.ins, v.outs, b);
    hide Sound, Final, Wanted, NoDead, BlockFine, BlockSpilled;
    var s := spilled[b].succ[i];
    assert v.avail[s] <= Final(v.og, c, a);
    assert r in v.ins[s] ==> t.out;
  }

  lemma SpilledOut(max: int, x: Special, outputs: set<Reg>, f: Fn, v: View, r: Reg, spilled: seq<Body>, ranges: seq<seq<Piece>>, next: nat,
                   b: int, q: Reg)
    requires Spillable(max, x, outputs, f, v) && AllSpilled(max, outputs, f.bodies, spilled, v, r, next, ranges)
    requires 0 <= b < |f.bodies| && Ordinary(x, r) && r.id < v.unused <= next && Linked(spilled)
    requires q in NextView(v, f.bodies, outputs, r, next, false).outs[b]
    ensures var n := NextView(v, f.bodies, outputs, r, next, false); InReg(q) in Final(n.og, spilled[b].code, n.avail[b])
  {
    var c, t, a := f.bodies[b].code, TaskAt(v, r, b), v.avail[b];
    SpilledSound(max, x, outputs, f, v, r, spilled, ranges, next, b);
    assert BlockSpillable(max, f.bodies, v, b);
    hide Sound, Final, NoDead, BlockFine, AllSpilled, Flow;
    if q != r { assert InReg(q) in Carried(t, Final(v.og, c, a), Demand(t, t.out, false, r)); }
  }

  lemma OutputsBelow(max: int, x: Special, outputs: set<Reg>, f: Fn, v: View, r: Reg)
    requires Spillable(max, x, outputs, f, v)
    ensures r in outputs ==> r.id < v.first
  {
    hide Flow, BlockSpillable;
  }

  lemma NothingDead(max: int, og: Reg -> Reg, t: Task, deliver: bool, next: nat, c: code, c': code, ranges: seq<Piece>, q: Reg)
    requires c != [] && BlockSpilled(max, og, t, deliver, next, c, c', ranges) && (q == t.r ==> !deliver)
    requires q != t.r && q.id < t.unused ==> NoDead(c, q, false)
    ensures NoDead(c', q, false)
  {
    hide NoDead, BlockFine, Original, SameFor, Provides, PieceFine;
    if q == t.r {
    } else if q.id < t.unused {
      assert SameFor(c', c, q);
      DeadSame(c', c, q);
    } else {
      assert Replacing(t, q);
    }
  }

  lemma DeadSame(c': code, c: code, q: Reg)
    requires SameFor(c', c, q) && NoDead(c, q, false)
    ensures NoDead(c', q, false)
  {
  }

  /** The liveness of the spilled function: the register is no longer live across blocks. */
  lemma SpilledFlow(max: int, x: Special, outputs: set<Reg>, f: Fn, v: View, r: Reg, spilled: seq<Body>, ranges: seq<seq<Piece>>, next: nat)
    requires Spillable(max, x, outputs, f, v) && AllSpilled(max, outputs, f.bodies, spilled, v, r, next, ranges)
    requires Ordinary(x, r) && r.id < v.unused
    ensures var n := NextView(v, f.bodies, outputs, r, next, false); Flow(x, spilled, outputs, n.ins, n.outs)
  {
    var n := NextView(v, f.bodies, outputs, r, next, false);
    forall b, i | 0 <= b < |spilled| && 0 <= i < |spilled[b].succ| ensures spilled[b].succ[i] < |spilled| {
      assert SpilledAt(max, outputs, f.bodies, spilled, v, r, next, ranges, b);
    }
    forall b | 0 <= b < |spilled| ensures FlowAt(x, spilled, outputs, n.ins, n.outs, b) {
      var c, c', t := f.bodies[b].code, spilled[b].code, TaskAt(v, r, b);
      assert SpilledAt(max, outputs, f.bodies, spilled, v, r, next, ranges, b);
      assert FlowAt(x, f.bodies, outputs, v.ins, v.outs, b) && BlockSpillable(max, f.bodies, v, b);
      forall q: Reg | q == r || q.id >= v.unused ensures !Wanted(c', q, q in n.outs[b]) {
        assert q != r ==> Replacing(t, q);
        assert NewFine(c', LastPos(c), ranges[b], q, q in n.outs[b]);
      }
      forall q: Reg | q != r && q.id < v.unused ensures Wanted(c', q, q in n.outs[b]) == Wanted(c, q, q in v.outs[b]) {
        assert SameFor(c', c, q);
      }
    }
  }

  /** Every position where a register is needed in the spilled block is covered: by what covered it
      before, or by the new ranges.
   */
  lemma SpilledCovers(max: int, x: Special, outputs: set<Reg>, f: Fn, v: View, r: Reg, spilled: seq<Body>, ranges: seq<seq<Piece>>, next: nat, b: int,
                      pieces: set<Piece>, more: set<Piece>)
    requires Spillable(max, x, outputs, f, v) && AllSpilled(max, outputs, f.bodies, spilled, v, r, next, ranges)
    requires Ordinary(x, r) && r.id < v.unused && 0 <= b < |f.bodies| && spilled[b].code != []
    requires f.bodies[b].code != [] && CoversBlock(x, b, f.bodies[b].code, v.outs[b], pieces)
    requires forall i :: 0 <= i < |ranges[b]| ==> ranges[b][i] in more
    ensures CoversBlock(x, b, spilled[b].code, NextView(v, f.bodies, outputs, r, next, false).outs[b], Without(pieces, r) + more)
  {
    var n, c, c', t := NextView(v, f.bodies, outputs, r, next, false), f.bodies[b].code, spilled[b].code, TaskAt(v, r, b);
    assert SpilledAt(max, outputs, f.bodies, spilled, v, r, next, ranges, b);
    assert FlowAt(x, f.bodies, outputs, v.ins, v.outs, b) && BlockSpillable(max, f.bodies, v, b);
    forall q, at | 0.0 <= at && Ordinary(x, q) && Needed(c', q, q in n.outs[b], LastPos(c'), at)
      ensures PieceCovers(Without(pieces, r) + more, b, q, at)
    {
      if q != r && q.id < v.unused {
        assert SameFor(c', c, q);
        assert Needed(c, q, q in v.outs[b], LastPos(c), at);
        var p :| p in pieces && p.block == b && p.reg == q && p.range.Covers(at);
        assert p in Without(pieces, r) + more;
      } else {
        assert q != r ==> Replacing(t, q) && q !in n.outs[b];
        assert NewFine(c', LastPos(c), ranges[b], q, q in n.outs[b]);
        assert RangeOf(ranges[b], q, at);
        var i :| 0 <= i < |ranges[b]| && ranges[b][i].reg == q && ranges[b][i].range.Covers(at);
        assert PieceFine(t, Delivers(outputs, f.bodies[b], r), next, ranges[b][i]);
      }
    }
  }

  // ----- the spilled function

  /** A received register is stored at the beginning of the prologue. */
  function StoredFirst(prologue: code, r: Reg, isInput: bool): code {
    if isInput then [Placed(StorePos(prologue), Store(r, r))] + prologue else prologue
  }

  /** Before the first instruction; without any there is only the branch to block 0, at position 1. */
  function StorePos(prologue: code): real { Between(0.0, if prologue == [] then 1.0 else prologue[0].pos) }

  lemma SpilledEntered(v: View, prologue: code, bodies: seq<Body>, outputs: set<Reg>, r: Reg, next: nat, isInput: bool, boundary: bool)
    requires Entered(v, prologue) && |v.avail| == |v.ins| == |v.outs| == |bodies| && v.first <= v.unused
    requires (isInput ==> r.id < v.first && v.og(r) == r && boundary) && (boundary ==> r.id < v.first) && (r in v.ins[0] ==> isInput)
    ensures Entered(NextView(v, bodies, outputs, r, next, boundary), StoredFirst(prologue, r, isInput))
  {
    var n, e := NextView(v, bodies, outputs, r, next, boundary), Everything(v.first);
    var p := Placed(StorePos(prologue), Store(r, r));
    forall k | 0 <= k < |prologue| ensures Below(prologue[k].op, v.unused) {
      assert prologue[k].op.Store? && prologue[k].op.reg in v.stored;
    }
    Rebase(v.og, v.unused, v.og(r), prologue, e);
    var q := StoredFirst(prologue, r, isInput);
    forall k | 0 <= k < |q| ensures q[k].op.Store? && q[k].op.reg == q[k].op.slot && q[k].op.reg in n.stored {
      if isInput && k > 0 { assert q[k] == prologue[k - 1]; }
    }
    hide Sound, Final, After, Stemming;
    if isInput {
      PushIncreasing(p, prologue, 0.0, 0.0);
      SoundCons(n.og, p, prologue, e);
      StoreAfter(n.og, r, e);
      MoreAvailable(n.og, prologue, e, After(n.og, p.op, e));
      StoresKeep(n.og, prologue, After(n.og, p.op, e));
    }
  }

  lemma StoreAfter(og: Reg -> Reg, r: Reg, a: iset<Loc>)
    ensures After(og, Store(r, r), a) == a + iset{OnStack(r)}
  {
  }

  lemma {:induction false} StoresKeep(og: Reg -> Reg, c: code, a: iset<Loc>)
    requires forall k :: 0 <= k < |c| ==> c[k].op.Store?
    ensures a <= Final(og, c, a)
  {
    if c != [] {
      assert c[0].op.Store?;
      StoresKeep(og, c[1..], After(og, c[0].op, a));
    }
  }

  /** The next view with or without the register among those at the function's boundaries. */
  lemma BoundaryOnly(v: View, bodies: seq<Body>, outputs: set<Reg>, r: Reg, next: nat, boundary: bool)
    requires |v.avail| == |v.ins| == |v.outs| == |bodies|
    ensures NextView(v, bodies, outputs, r, next, boundary) == NextView(v, bodies, outputs, r, next, false).(stored := if boundary then v.stored + {r} else v.stored)
  {
  }

  /** Spilling keeps all of it, so that it can be repeated. */
  lemma SpillKeeps(max: int, x: Special, outputs: set<Reg>, f: Fn, v: View, r: Reg, spilled: seq<Body>, ranges: seq<seq<Piece>>, next: nat,
                   isInput: bool, boundary: bool)
    requires Spillable(max, x, outputs, f, v) && AllSpilled(max, outputs, f.bodies, spilled, v, r, next, ranges)
    requires Ordinary(x, r) && r.id < v.unused <= next
    requires (isInput ==> r.id < v.first && boundary) && (boundary ==> r.id < v.first) && (r in v.ins[0] ==> isInput)
    ensures Spillable(max, x, outputs, Fn(StoredFirst(f.prologue, r, isInput), spilled), NextView(v, f.bodies, outputs, r, next, boundary))
  {
    var n0, n := NextView(v, f.bodies, outputs, r, next, false), NextView(v, f.bodies, outputs, r, next, boundary);
    BoundaryOnly(v, f.bodies, outputs, r, next, boundary);
    SpilledEntered(v, f.prologue, f.bodies, outputs, r, next, isInput, boundary);
    hide Entered, BlockSpillable, AllSpilled;
    SpilledFlow(max, x, outputs, f, v, r, spilled, ranges, next);
    hide Flow;
    assert Linked(spilled) by { FlowLinked(x, spilled, outputs, n0.ins, n0.outs); }
    forall b | 0 <= b < |spilled| ensures BlockSpillable(max, spilled, n, b) {
      SpilledBlock(max, x, outputs, f, v, r, spilled, ranges, next, b);
      SameBlockView(max, spilled, n0, n, b);
    }
  }

  lemma FlowLinked(x: Special, bodies: seq<Body>, outputs: set<Reg>, ins: seq<set<Reg>>, outs: seq<set<Reg>>)
    requires Flow(x, bodies, outputs, ins, outs)
    ensures Linked(bodies) && |ins| == |outs| == |bodies|
  {
  }

  lemma SameBlockView(max: int, bodies: seq<Body>, v: View, n: View, b: int)
    requires Linked(bodies) && |v.avail| == |v.ins| == |v.outs| == |bodies| && 0 <= b < |bodies| && n == v.(stored := n.stored)
    requires BlockSpillable(max, bodies, v, b)
    ensures BlockSpillable(max, bodies, n, b)
  {
    hide Sound, Final, BlockFine, NoDead, BelowSet;
  }

  lemma SpilledComputes(max: int, x: Special, outputs: set<Reg>, f: Fn, v: View, r: Reg, spilled: seq<Body>, ranges: seq<seq<Piece>>, next: nat,
                        orig: seq<Body>)
    requires Spillable(max, x, outputs, f, v) && AllSpilled(max, outputs, f.bodies, spilled, v, r, next, ranges)
    requires Computes(v.og, f.bodies, orig)
    ensures Computes(Stemming(v.og, v.unused, v.og(r)), spilled, orig)
  {
    forall b | 0 <= b < |orig|
      ensures spilled[b].succ == orig[b].succ && Original(Stemming(v.og, v.unused, v.og(r)), spilled[b].code) == Original(Itself(), orig[b].code)
    {
      assert SpilledAt(max, outputs, f.bodies, spilled, v, r, next, ranges, b) && BlockSpillable(max, f.bodies, v, b);
      Rebase(v.og, v.unused, v.og(r), f.bodies[b].code, v.avail[b]);
    }
  }

  function PieceSet(ranges: seq<Piece>): set<Piece> { set q | q in ranges }

  /** The ranges of all blocks, and of the stored register in the prologue. */
  function AllPieces(ranges: seq<seq<Piece>>, n: nat): (ps: set<Piece>)
    requires n <= |ranges|
    ensures forall b, i :: 0 <= b < n && 0 <= i < |ranges[b]| ==> ranges[b][i] in ps
  {
    if n == 0 then {} else AllPieces(ranges, n - 1) + PieceSet(ranges[n - 1])
  }

  const PROLOGUE := -1

  function NewPieces(prologue: code, r: Reg, isInput: bool, ranges: seq<seq<Piece>>): set<Piece> {
    AllPieces(ranges, |ranges|) + if isInput then {Piece(PROLOGUE, r, Range(0.0, StorePos(prologue)))} else {}
  }

  /** A range of a fresh register, or of the spilled one at the function's boundaries. */
  ghost predicate NewPiece(p: Piece, r: Reg, boundary: bool, unused: nat, next: nat) {
    ((boundary && p.reg == r) || unused <= p.reg.id < next) && p.range.begin <= p.range.end
  }

  lemma {:induction false} PiecesFine(ranges: seq<seq<Piece>>, n: nat, r: Reg, boundary: bool, unused: nat, next: nat)
    requires n <= |ranges|
    requires forall b, i :: 0 <= b < n && 0 <= i < |ranges[b]| ==> NewPiece(ranges[b][i], r, boundary, unused, next)
    ensures forall p :: p in AllPieces(ranges, n) ==> NewPiece(p, r, boundary, unused, next)
  {
    if n > 0 { PiecesFine(ranges, n - 1, r, boundary, unused, next); }
  }

  /** The pieces of a spill are of fresh registers, or of the register at the function's boundaries. */
  lemma SpillPieces(max: int, outputs: set<Reg>, f: Fn, v: View, r: Reg, spilled: seq<Body>, ranges: seq<seq<Piece>>, next: nat, isInput: bool)
    requires AllSpilled(max, outputs, f.bodies, spilled, v, r, next, ranges) && Increasing(f.prologue, 0.0)
    ensures forall p :: p in NewPieces(f.prologue, r, isInput, ranges) ==> NewPiece(p, r, isInput || r in outputs, v.unused, next)
  {
    var boundary := isInput || r in outputs;
    forall b, i | 0 <= b < |ranges| && 0 <= i < |ranges[b]| ensures NewPiece(ranges[b][i], r, boundary, v.unused, next) {
      assert SpilledAt(max, outputs, f.bodies, spilled, v, r, next, ranges, b);
      assert PieceFine(TaskAt(v, r, b), Delivers(outputs, f.bodies[b], r), next, ranges[b][i]);
    }
    PiecesFine(ranges, |ranges|, r, boundary, v.unused, next);
  }

  /** They cover all that the new code needs. */
  lemma SpillCovers(max: int, x: Special, outputs: set<Reg>, f: Fn, v: View, r: Reg, spilled: seq<Body>, ranges: seq<seq<Piece>>, next: nat,
                    isInput: bool, pieces: set<Piece>)
    requires Spillable(max, x, outputs, f, v) && AllSpilled(max, outputs, f.bodies, spilled, v, r, next, ranges)
    requires Ordinary(x, r) && r.id < v.unused && CoversNeeds(x, f.bodies, v.outs, pieces)
    ensures CoversNeeds(x, spilled, NextView(v, f.bodies, outputs, r, next, false).outs,
              Without(pieces, r) + NewPieces(f.prologue, r, isInput, ranges))
  {
    var more, n := NewPieces(f.prologue, r, isInput, ranges), NextView(v, f.bodies, outputs, r, next, false);
    forall b | 0 <= b < |spilled| ensures Laid(spilled[b].code) && CoversBlock(x, b, spilled[b].code, n.outs[b], Without(pieces, r) + more) {
      assert SpilledAt(max, outputs, f.bodies, spilled, v, r, next, ranges, b);
      SpilledCovers(max, x, outputs, f, v, r, spilled, ranges, next, b, pieces, more);
    }
  }

  // ----- the rewriting

  /** Why the source aborts: a value that is written to the spilled register and never used. */
  predicate Unspillable(bodies: seq<Body>, outs: seq<set<Reg>>, r: Reg)
    requires |outs| == |bodies|
  {
    exists b :: 0 <= b < |bodies| && !NoDead(bodies[b].code, r, r in outs[b])
  }

  lemma GivenBlock(max: int, x: Special, outputs: set<Reg>, f: Fn, v: View, r: Reg, b: int)
    requires Spillable(max, x, outputs, f, v) && 0 <= b < |f.bodies| && !Physical(max, r) && r.id < v.unused
    ensures var og := Stemming(v.og, v.unused, v.og(r)); var t := TaskAt(v, r, b);
      && Stems(og, t) && Laid(f.bodies[b].code)
      && forall k :: 0 <= k < |f.bodies[b].code| ==> Given(max, og, t, f.bodies[b].code[k].op)
  {
    var og, t, c := Stemming(v.og, v.unused, v.og(r)), TaskAt(v, r, b), f.bodies[b].code;
    assert BlockSpillable(max, f.bodies, v, b);
    StemsOwn(v, r, b);
    forall k | 0 <= k < |c| ensures Given(max, og, t, c[k].op) {
      RebaseFine(max, v.og, v.unused, v.og(r), c[k].op);
    }
  }

  lemma SpilledGrows(max: int, og: Reg -> Reg, t: Task, deliver: bool, next: nat, more: nat, c: code, c': code, ranges: seq<Piece>)
    requires c != [] && BlockSpilled(max, og, t, deliver, next, c, c', ranges) && next <= more
    ensures BlockSpilled(max, og, t, deliver, more, c, c', ranges)
  {
    forall k | 0 <= k < |c'| ensures OpFine(max, og, more, c'[k].op) {
      assert OpFine(max, og, next, c'[k].op);
    }
    forall i | 0 <= i < |ranges| ensures PieceFine(t, deliver, more, ranges[i]) {
      assert PieceFine(t, deliver, next, ranges[i]);
    }
    hide Provides, Others, NewFine, Laid;
  }

  /** The code of one block after its walk, with the reload before a return. */
  function WithDelivery(c1: code, r: Reg, home: Reg, deliver: bool): code
    requires c1 != []
  {
    if deliver then Delivered(c1, Placed(Between(PosBefore(c1, |c1| - 1), LastPos(c1)), Reload(r, home))) else c1
  }

  function WithDeliveryPiece(c1: code, b: int, r: Reg, deliver: bool, ranges: seq<Piece>): seq<Piece>
    requires c1 != []
  {
    if deliver then ranges + [Piece(b, r, Range(Between(PosBefore(c1, |c1| - 1), LastPos(c1)), LastPos(c1)))] else ranges
  }

  lemma BlockDone(max: int, x: Special, outputs: set<Reg>, f: Fn, v: View, r: Reg, b: int, w: Walk)
    requires Spillable(max, x, outputs, f, v) && 0 <= b < |f.bodies| && f.bodies[b].code != [] && Ordinary(x, r) && r.id < v.unused
    requires Link(max, Stemming(v.og, v.unused, v.og(r)), TaskAt(v, r, b), LastPos(f.bodies[b].code), 0.0, f.bodies[b].code, w) && !w.have
    ensures w.tail != [] && v.unused <= w.next
    ensures var d := Delivers(outputs, f.bodies[b], r);
      BlockSpilled(max, Stemming(v.og, v.unused, v.og(r)), TaskAt(v, r, b), d, w.next, f.bodies[b].code,
        WithDelivery(w.tail, r, v.og(r), d), WithDeliveryPiece(w.tail, b, r, d, w.ranges))
  {
    var og, t, c, d := Stemming(v.og, v.unused, v.og(r)), TaskAt(v, r, b), f.bodies[b].code, Delivers(outputs, f.bodies[b], r);
    DeliversOwn(max, x, outputs, f, v, r, b);
    StemsOwn(v, r, b);
    hide *;
    WalkSpilled(max, og, t, c, w);
    WalkShape(max, og, t, LastPos(c), c, w);
    WithDeliverySpilled(max, og, t, w.next, c, w.tail, w.ranges, d);
    assert t.r == r && t.home == v.og(r) && t.block == b by { TaskParts(v, r, b); }
  }

  lemma DeliversOwn(max: int, x: Special, outputs: set<Reg>, f: Fn, v: View, r: Reg, b: int)
    requires Spillable(max, x, outputs, f, v) && 0 <= b < |f.bodies| && Ordinary(x, r)
    ensures Delivers(outputs, f.bodies[b], r) ==> TaskAt(v, r, b).out && TaskAt(v, r, b).r == TaskAt(v, r, b).home
  {
    if Delivers(outputs, f.bodies[b], r) { assert FlowAt(x, f.bodies, outputs, v.ins, v.outs, b); }
    hide Flow, BlockSpillable;
  }

  lemma TaskParts(v: View, r: Reg, b: int)
    requires 0 <= b < |v.outs|
    ensures var t := TaskAt(v, r, b); t.r == r && t.home == v.og(r) && t.block == b && t.unused == v.unused
  {
  }

  lemma WithDeliverySpilled(max: int, og: Reg -> Reg, t: Task, next: nat, c: code, c1: code, ranges: seq<Piece>, deliver: bool)
    requires c != [] && c1 != [] && BlockSpilled(max, og, t, false, next, c, c1, ranges) && Stems(og, t) && LastPos(c1) == LastPos(c)
    requires Increasing(c1, 0.0) && forall k :: 0 <= k < |c1| ==> !c1[k].op.Mentions(t.r)
    requires deliver ==> t.out && t.r == t.home
    ensures BlockSpilled(max, og, t, deliver, next, c, WithDelivery(c1, t.r, t.home, deliver), WithDeliveryPiece(c1, t.block, t.r, deliver, ranges))
  {
    hide BlockSpilled, Stems, Delivered, Increasing;
    if deliver {
      LastGap(c1);
      var p := Placed(Between(PosBefore(c1, |c1| - 1), LastPos(c1)), Reload(t.r, t.home));
      DeliverSpilled(max, og, t, next, c, c1, ranges, p);
    }
  }

  lemma LastGap(c1: code)
    requires c1 != [] && Increasing(c1, 0.0)
    ensures PosBefore(c1, |c1| - 1) < Between(PosBefore(c1, |c1| - 1), LastPos(c1)) < LastPos(c1)
  {
    hide Increasing;
    IncreasingAt(c1, 0.0, |c1| - 1);
    if |c1| > 1 { IncreasingAt(c1, 0.0, |c1| - 2); }
  }

  lemma WalkShape(max: int, og: Reg -> Reg, t: Task, stop: real, c: code, w: Walk)
    requires c != [] && Link(max, og, t, stop, 0.0, c, w)
    ensures w.tail != [] && LastPos(w.tail) == LastPos(c) && Increasing(w.tail, 0.0) && t.unused <= w.next
    ensures forall k :: 0 <= k < |w.tail| ==> !w.tail[k].op.Mentions(t.r)
  {
    hide Rewrites, Others, Replaced, Wanted;
    WalkFine(max, og, t, c, w);
  }

  lemma LaidStarts(c: code)
    requires Laid(c)
    ensures c != []
  {
  }

  /** Instruction i of block b reads the register and is reloaded. */
  predicate Reloaded(c: code, b: int, i: int, r: Reg, overlaps: ((int, int)) -> bool) {
    0 <= i < |c| && r in c[i].op.Ins() && !c[i].op.Store? && (!Occurs(c[..i], r) || overlaps((b, i)))
  }

  /** The range of a replacement does not reach across a reload. */
  ghost predicate Apart(c: code, r: Reg, overlaps: ((int, int)) -> bool, q: Piece) {
    q.reg == r || forall i :: Reloaded(c, q.block, i, r, overlaps) ==> !Spans(q.range, CutAt(c, i))
  }

  ghost predicate BlockApart(c: code, b: int, r: Reg, overlaps: ((int, int)) -> bool, ranges: seq<Piece>) {
    forall j :: 0 <= j < |ranges| ==> ranges[j].block == b && Apart(c, r, overlaps, ranges[j])
  }

  lemma WalkApart(max: int, og: Reg -> Reg, t: Task, c: code, w: Walk, local: int -> bool, overlaps: ((int, int)) -> bool, deliver: bool)
    requires c != [] && CutsClear(c, 0, t.r, local, w) && (forall k :: local(k) == overlaps((t.block, k))) && w.tail != []
    requires forall i :: 0 <= i < |w.ranges| ==> w.ranges[i].block == t.block
    ensures BlockApart(c, t.block, t.r, overlaps, WithDeliveryPiece(w.tail, t.block, t.r, deliver, w.ranges))
  {
    forall i | Reloaded(c, t.block, i, t.r, overlaps) ensures Clear(w, CutAt(c, i)) {
      assert Cut(c, i, t.r, local);
    }
    hide CutsClear, Begun, CutAt, Reloaded;
  }

  lemma WalkBlocks(max: int, og: Reg -> Reg, t: Task, stop: real, c: code, w: Walk)
    requires Link(max, og, t, stop, 0.0, c, w)
    ensures forall i :: 0 <= i < |w.ranges| ==> w.ranges[i].block == t.block
  {
    hide Rewrites, Others, Replaced, Wanted;
    forall i | 0 <= i < |w.ranges| ensures w.ranges[i].block == t.block { assert RangeOk(t, w.next, w.ranges[i]); }
  }

  lemma {:induction false} PiecesApart(bodies: seq<Body>, r: Reg, overlaps: ((int, int)) -> bool, ranges: seq<seq<Piece>>, n: nat)
    requires n <= |ranges| == |bodies| && forall b :: 0 <= b < n ==> BlockApart(bodies[b].code, b, r, overlaps, ranges[b])
    ensures forall q :: q in AllPieces(ranges, n) ==> 0 <= q.block < n && Apart(bodies[q.block].code, r, overlaps, q)
  {
    if n > 0 {
      PiecesApart(bodies, r, overlaps, ranges, n - 1);
      assert BlockApart(bodies[n - 1].code, n - 1, r, overlaps, ranges[n - 1]);
      hide Apart;
    }
  }

  ghost predicate AllApart(bodies: seq<Body>, r: Reg, overlaps: ((int, int)) -> bool, more: set<Piece>) {
    forall q :: q in more && q.reg != r ==> 0 <= q.block < |bodies| && Apart(bodies[q.block].code, r, overlaps, q)
  }

  lemma NewApart(bodies: seq<Body>, prologue: code, r: Reg, isInput: bool, overlaps: ((int, int)) -> bool, ranges: seq<seq<Piece>>)
    requires |ranges| == |bodies| && forall b :: 0 <= b < |bodies| ==> BlockApart(bodies[b].code, b, r, overlaps, ranges[b])
    ensures AllApart(bodies, r, overlaps, NewPieces(prologue, r, isInput, ranges))
  {
    PiecesApart(bodies, r, overlaps, ranges, |ranges|);
    hide Apart, BlockApart;
  }

  /** The code and the new live-out set of one block. */
  method SpillBody(max: int, ghost x: Special, f: Fn, ghost v: View, r: Reg, home: Reg, out: set<Reg>, outputs: set<Reg>,
                   overlaps: ((int, int)) -> bool, unused: nat, b: nat, next0: nat)
    returns (body: Body, ranges: seq<Piece>, newOut: set<Reg>, next: nat)
    requires Spillable(max, x, outputs, f, v) && b < |f.bodies| && out == v.outs[b] && home == v.og(r) && unused == v.unused <= next0
    requires !Physical(max, r) && Ordinary(x, r) && r.id < unused && NoDead(f.bodies[b].code, r, r in out)
    ensures next0 <= next && body.succ == f.bodies[b].succ && f.bodies[b].code != []
    ensures BlockSpilled(max, Stemming(v.og, v.unused, v.og(r)), TaskAt(v, r, b), Delivers(outputs, f.bodies[b], r), next,
              f.bodies[b].code, body.code, ranges)
    ensures newOut == if Delivers(outputs, f.bodies[b], r) then out else out - {r}
    ensures BlockApart(f.bodies[b].code, b, r, overlaps, ranges)
  {
    var c, t := f.bodies[b].code, Task(r, home, b, r in out, unused);
    assert t == TaskAt(v, r, b);
    hide *;
    GivenBlock(max, x, outputs, f, v, r, b);
    LaidStarts(c);
    var local := (k: int) => overlaps((b, k));
    var w := SpillInBlock(max, Stemming(v.og, v.unused, home), t, c, local, next0);
    WalkBlocks(max, Stemming(v.og, v.unused, home), t, LastPos(c), c, w);
    BlockDone(max, x, outputs, f, v, r, b, w);
    var d := Delivers(outputs, f.bodies[b], r);
    body := Body(WithDelivery(w.tail, r, home, d), f.bodies[b].succ);
    ranges := WithDeliveryPiece(w.tail, b, r, d, w.ranges);
    WalkApart(max, Stemming(v.og, v.unused, home), t, c, w, local, overlaps, d);
    newOut := if d then out else out - {r};
    next := w.next;
  }

  method SpillBodies(max: int, ghost x: Special, f: Fn, ghost v: View, r: Reg, home: Reg, outs: seq<set<Reg>>, outputs: set<Reg>,
                     overlaps: ((int, int)) -> bool, unused: nat)
    returns (spilled: seq<Body>, ranges: seq<seq<Piece>>, newOuts: seq<set<Reg>>, next: nat)
    requires Spillable(max, x, outputs, f, v) && outs == v.outs && home == v.og(r) && unused == v.unused
    requires !Physical(max, r) && Ordinary(x, r) && r.id < unused && !Unspillable(f.bodies, outs, r)
    ensures AllSpilled(max, outputs, f.bodies, spilled, v, r, next, ranges) && unused <= next
    ensures |newOuts| == |f.bodies| && forall c :: 0 <= c < |f.bodies| ==> newOuts[c] == if Delivers(outputs, f.bodies[c], r) then outs[c] else outs[c] - {r}
    ensures |ranges| == |f.bodies| && forall b :: 0 <= b < |f.bodies| ==> BlockApart(f.bodies[b].code, b, r, overlaps, ranges[b])
  {
    hide *;
    SpillableCounts(max, x, outputs, f, v);
    spilled, ranges, newOuts, next := [], [], [], unused;
    for b := 0 to |f.bodies|
      invariant |spilled| == |ranges| == |newOuts| == b <= |v.outs| == |f.bodies| && unused <= next
      invariant forall c :: 0 <= c < b ==> SpilledAt(max, outputs, f.bodies, spilled, v, r, next, ranges, c)
      invariant forall c :: 0 <= c < b ==> newOuts[c] == if Delivers(outputs, f.bodies[c], r) then outs[c] else outs[c] - {r}
      invariant forall c :: 0 <= c < b ==> BlockApart(f.bodies[c].code, c, r, overlaps, ranges[c])
    {
      NoneDead(f.bodies, outs, r, b);
      var body, rs, newOut, next' := SpillBody(max, x, f, v, r, home, outs[b], outputs, overlaps, unused, b, next);
      ghost var old_, oldRanges := spilled, ranges;
      spilled, ranges, newOuts := spilled + [body], ranges + [rs], newOuts + [newOut];
      assert SpilledAt(max, outputs, f.bodies, spilled, v, r, next', ranges, b) by { SpilledHere(max, outputs, f.bodies, spilled, v, r, next', ranges, b); }
      UptoNext(max, outputs, f.bodies, old_, spilled, v, r, next, next', oldRanges, ranges, b);
      next := next';
    }
    EachSpilled(max, outputs, f.bodies, spilled, v, r, next, ranges);
  }

  lemma SpillableCounts(max: int, x: Special, outputs: set<Reg>, f: Fn, v: View)
    requires Spillable(max, x, outputs, f, v)
    ensures |v.outs| == |f.bodies|
  {
    hide FlowAt, BlockSpillable;
  }

  lemma NoneDead(bodies: seq<Body>, outs: seq<set<Reg>>, r: Reg, b: nat)
    requires b < |bodies| == |outs| && !Unspillable(bodies, outs, r)
    ensures NoDead(bodies[b].code, r, r in outs[b])
  {
    hide NoDead;
  }

  lemma EachSpilled(max: int, outputs: set<Reg>, bodies: seq<Body>, spilled: seq<Body>, v: View, r: Reg, next: nat, ranges: seq<seq<Piece>>)
    requires |bodies| == |spilled| == |ranges| == |v.outs|
    requires forall b :: 0 <= b < |bodies| ==> SpilledAt(max, outputs, bodies, spilled, v, r, next, ranges, b)
    ensures AllSpilled(max, outputs, bodies, spilled, v, r, next, ranges)
  {
    hide SpilledAt;
  }

  lemma SpilledHere(max: int, outputs: set<Reg>, bodies: seq<Body>, spilled: seq<Body>, v: View, r: Reg, next: nat, ranges: seq<seq<Piece>>, b: int)
    requires 0 <= b < |spilled| == |ranges| <= |bodies| == |v.outs|
    requires spilled[b].succ == bodies[b].succ && bodies[b].code != []
    requires BlockSpilled(max, Stemming(v.og, v.unused, v.og(r)), TaskAt(v, r, b), Delivers(outputs, bodies[b], r), next,
               bodies[b].code, spilled[b].code, ranges[b])
    ensures SpilledAt(max, outputs, bodies, spilled, v, r, next, ranges, b)
  {
  }

  /** Spills a register everywhere: its occurrences in every block, a store in the prologue if the
      function receives it, a reload before every return if the function hands it back. The result
      can be spilled again, does the same, and its pieces cover what its new registers need.
   */
  method SpillRegister(max: int, ghost x: Special, f: Fn, ghost v: View, r: Reg, home: Reg, outs: seq<set<Reg>>, isInput: bool,
                       outputs: set<Reg>, overlaps: ((int, int)) -> bool, unused: nat)
    returns (g: Fn, more: set<Piece>, next: nat, newOuts: seq<set<Reg>>, ghost n: View)
    requires Spillable(max, x, outputs, f, v) && outs == v.outs && home == v.og(r) && unused == v.unused
    requires !Physical(max, r) && Ordinary(x, r) && r.id < unused && !Unspillable(f.bodies, outs, r)
    requires (isInput ==> r.id < v.first) && (r in v.ins[0] ==> isInput)
    ensures Spillable(max, x, outputs, g, n) && newOuts == n.outs && next == n.unused && v.unused <= next && n.first == v.first
    ensures n.og == Stemming(v.og, v.unused, home) && n.stored == if isInput || r in outputs then v.stored + {r} else v.stored
    ensures |n.ins| == |v.ins| && n.ins[0] == v.ins[0] - {r}
    ensures g.prologue == StoredFirst(f.prologue, r, isInput)
    ensures forall orig :: Computes(v.og, f.bodies, orig) ==> Computes(n.og, g.bodies, orig)
    ensures forall pieces :: CoversNeeds(x, f.bodies, v.outs, pieces) ==> CoversNeeds(x, g.bodies, n.outs, Without(pieces, r) + more)
    ensures forall p :: p in more ==> NewPiece(p, r, isInput || r in outputs, unused, next)
    ensures AllApart(f.bodies, r, overlaps, more)
  {
    var spilled, ranges, newOuts', next' := SpillBodies(max, x, f, v, r, home, outs, outputs, overlaps, unused);
    newOuts, next := newOuts', next';
    g := Fn(StoredFirst(f.prologue, r, isInput), spilled);
    more := NewPieces(f.prologue, r, isInput, ranges);
    n := NextView(v, f.bodies, outputs, r, next, isInput || r in outputs);
    assert newOuts == n.outs && n.ins[0] == v.ins[0] - {r};
    assert r in outputs ==> r.id < v.first;
    SpillKeeps(max, x, outputs, f, v, r, spilled, ranges, next, isInput, isInput || r in outputs);
    SpillPieces(max, outputs, f, v, r, spilled, ranges, next, isInput);
    NewApart(f.bodies, f.prologue, r, isInput, overlaps, ranges);
    hide AllApart, BlockApart, Spillable, AllSpilled, Computes, CoversNeeds, NewPieces, NewPiece;
    forall orig | Computes(v.og, f.bodies, orig) ensures Computes(n.og, g.bodies, orig) {
      SpilledComputes(max, x, outputs, f, v, r, spilled, ranges, next, orig);
    }
    forall pieces | CoversNeeds(x, f.bodies, v.outs, pieces) ensures CoversNeeds(x, g.bodies, n.outs, Without(pieces, r) + more) {
      SpillCovers(max, x, outputs, f, v, r, spilled, ranges, next, isInput, pieces);
    }
  }

  lemma UptoNext(max: int, outputs: set<Reg>, bodies: seq<Body>, before: seq<Body>, spilled: seq<Body>, v: View, r: Reg, next: nat, more: nat,
                 oldRanges: seq<seq<Piece>>, ranges: seq<seq<Piece>>, b: nat)
    requires b < |bodies| == |v.outs| && |before| == |oldRanges| == b && |spilled| == |ranges| == b + 1 && next <= more
    requires spilled[..b] == before && ranges[..b] == oldRanges
    requires forall c :: 0 <= c < b ==> SpilledAt(max, outputs, bodies, before, v, r, next, oldRanges, c)
    requires SpilledAt(max, outputs, bodies, spilled, v, r, more, ranges, b)
    ensures forall c :: 0 <= c < b + 1 ==> SpilledAt(max, outputs, bodies, spilled, v, r, more, ranges, c)
  {
    forall c | 0 <= c < b + 1 ensures SpilledAt(max, outputs, bodies, spilled, v, r, more, ranges, c) {
      if c < b {
        assert SpilledAt(max, outputs, bodies, before, v, r, next, oldRanges, c);
        assert spilled[c] == before[c] && ranges[c] == oldRanges[c];
        SpilledGrows(max, Stemming(v.og, v.unused, v.og(r)), TaskAt(v, r, c), Delivers(outputs, bodies[c], r), next, more,
          bodies[c].code, spilled[c].code, ranges[c]);
      }
    }
  }
}
