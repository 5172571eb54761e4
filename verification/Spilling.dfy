/** Rewriting the occurrences of one register through the stack slot of the register it stems from.

    Registers that replace a spilled one stem from the same original register as it does. Which
    registers and slots hold the current values of their originals at a point of the code is the
    availability there; code that reads nothing else behaves like the original.
 */
module Spilling {
  import opened Liveness
  import opened Operations
  import opened LiveRanges
  import opened Coloring

  datatype Loc = InReg(reg: Reg) | OnStack(slot: Reg)

  /** The original register whose value a location may hold. */
  function Home(og: Reg -> Reg, l: Loc): Reg { if l.InReg? then og(l.reg) else l.slot }

  /** The slot of a store or reload is that of its register's original; what a plain instruction
      writes stems from different originals.
   */
  ghost predicate GoodOp(og: Reg -> Reg, op: Op) {
    match op
    case Plain(_, _, _, _) => forall d, e :: op.Writes(d) && op.Writes(e) && og(d) == og(e) ==> d == e
    case Store(reg, slot) => slot == og(reg)
    case Reload(reg, slot) => slot == og(reg)
  }

  ghost predicate GoodCode(og: Reg -> Reg, c: code) { forall k :: 0 <= k < |c| ==> GoodOp(og, c[k].op) }

  // ----- availability

  ghost predicate Allowed(op: Op, a: iset<Loc>) {
    match op
    case Plain(_, ins, _, _) => forall i :: 0 <= i < |ins| ==> InReg(ins[i]) in a
    case Store(reg, _) => InReg(reg) in a
    case Reload(_, slot) => OnStack(slot) in a
  }

  ghost predicate Kills(og: Reg -> Reg, op: Op, home: Reg) { exists d :: op.Writes(d) && og(d) == home }

  ghost function After(og: Reg -> Reg, op: Op, a: iset<Loc>): iset<Loc> {
    match op
    case Plain(_, _, _, _) => iset l: Loc | (l.InReg? && op.Writes(l.reg)) || (l in a && !Kills(og, op, Home(og, l)))
    case Store(_, slot) => a + iset{OnStack(slot)}
    case Reload(reg, _) => a + iset{InReg(reg)}
  }

  ghost predicate Sound(og: Reg -> Reg, c: code, a: iset<Loc>) {
    c == [] || (Allowed(c[0].op, a) && Sound(og, c[1..], After(og, c[0].op, a)))
  }

  ghost function Final(og: Reg -> Reg, c: code, a: iset<Loc>): iset<Loc> {
    if c == [] then a else Final(og, c[1..], After(og, c[0].op, a))
  }

  lemma SoundCons(og: Reg -> Reg, p: Placed, c: code, a: iset<Loc>)
    ensures Sound(og, [p] + c, a) <==> Allowed(p.op, a) && Sound(og, c, After(og, p.op, a))
    ensures Final(og, [p] + c, a) == Final(og, c, After(og, p.op, a))
  {
    assert ([p] + c)[1..] == c;
  }

  lemma AfterGrows(og: Reg -> Reg, op: Op, a: iset<Loc>, b: iset<Loc>)
    requires a <= b && Allowed(op, a)
    ensures Allowed(op, b) && After(og, op, a) <= After(og, op, b)
  {
  }

  lemma {:induction false} MoreAvailable(og: Reg -> Reg, c: code, a: iset<Loc>, b: iset<Loc>)
    requires a <= b && Sound(og, c, a)
    ensures Sound(og, c, b) && Final(og, c, a) <= Final(og, c, b)
  {
    if c != [] {
      AfterGrows(og, c[0].op, a, b);
      hide After, Allowed;
      MoreAvailable(og, c[1..], After(og, c[0].op, a), After(og, c[0].op, b));
    }
  }

  // ----- what sound code does

  /** The plain instructions on the original registers. */
  function Original(og: Reg -> Reg, c: code): seq<Op> {
    if c == [] then []
    else (if c[0].op.Plain? then [c[0].op.Substitute(og)] else []) + Original(og, c[1..])
  }

  function RunOps<V, M>(m: Machine<V, M>, ops: seq<Op>, s: State<V, M>): State<V, M> {
    if ops == [] then s else RunOps(m, ops[1..], Step(m, ops[0], s))
  }

  function Holding<V, M>(s: State<V, M>, l: Loc): V { if l.InReg? then s.regs(l.reg) else s.stack(l.slot) }

  /** Memory agrees, and every available location holds the value of its original register. */
  ghost predicate Mirrors<V, M>(og: Reg -> Reg, a: iset<Loc>, s: State<V, M>, o: State<V, M>) {
    s.mem == o.mem && forall l :: l in a ==> Holding(s, l) == o.regs(Home(og, l))
  }

  lemma OriginalPosition(og: Reg -> Reg, op: Op, r: Reg)
    requires op.Plain? && GoodOp(og, op) && r in op.outs
    ensures Position(Renamed(op.outs, og), og(r)) == Position(op.outs, r)
  {
    forall j | 0 <= j < |op.outs| ensures og(op.outs[j]) == og(r) <==> op.outs[j] == r {
      assert op.Writes(op.outs[j]) && op.Writes(r);
    }
  }

  /** Clobbered registers are their own originals. */
  ghost predicate ClobbersKept(og: Reg -> Reg, op: Op) { forall r :: r in op.Clobbers() ==> og(r) == r }

  lemma PlainMirrors<V, M>(m: Machine<V, M>, og: Reg -> Reg, op: Op, a: iset<Loc>, s: State<V, M>, o: State<V, M>)
    requires op.Plain? && GoodOp(og, op) && ClobbersKept(og, op) && Allowed(op, a) && Mirrors(og, a, s, o)
    ensures Mirrors(og, After(og, op, a), Step(m, op, s), Step(m, op.Substitute(og), o))
  {
    assert Values(s, op.ins) == Values(o, Renamed(op.ins, og)) by {
      forall i | 0 <= i < |op.ins| ensures s.regs(op.ins[i]) == o.regs(og(op.ins[i])) {
        assert InReg(op.ins[i]) in a;
      }
    }
    var s', o' := Step(m, op, s), Step(m, op.Substitute(og), o);
    forall l | l in After(og, op, a) ensures Holding(s', l) == o'.regs(Home(og, l)) {
      WrittenMirrors(m, og, op, a, s, o, l);
    }
  }

  lemma WrittenMirrors<V, M>(m: Machine<V, M>, og: Reg -> Reg, op: Op, a: iset<Loc>, s: State<V, M>, o: State<V, M>, l: Loc)
    requires op.Plain? && GoodOp(og, op) && ClobbersKept(og, op) && Mirrors(og, a, s, o) && l in After(og, op, a)
    requires Values(s, op.ins) == Values(o, Renamed(op.ins, og))
    ensures Holding(Step(m, op, s), l) == Written(m, op.Substitute(og), o, Home(og, l))
  {
    var h := Home(og, l);
    var cop := op.Substitute(og);
    if l.InReg? && l.reg in op.outs {
      OriginalPosition(og, op, l.reg);
    } else {
      if l.InReg? && op.Writes(l.reg) {
        forall i | 0 <= i < |op.outs| ensures og(op.outs[i]) != h {
          assert op.Writes(op.outs[i]);
        }
      } else {
        assert !Kills(og, op, h);
        forall i | 0 <= i < |op.outs| ensures og(op.outs[i]) != h {
          assert op.Writes(op.outs[i]);
        }
        assert h in op.clobbers ==> op.Writes(h);
      }
      assert h !in cop.outs;
    }
  }

  ghost predicate ClobbersOriginal(og: Reg -> Reg, c: code) { forall k :: 0 <= k < |c| ==> ClobbersKept(og, c[k].op) }

  /** Sound code does on its locations what its plain instructions do on the original registers. */
  lemma {:induction false} SoundRuns<V, M>(m: Machine<V, M>, og: Reg -> Reg, c: code, a: iset<Loc>, s: State<V, M>, o: State<V, M>)
    requires Sound(og, c, a) && GoodCode(og, c) && ClobbersOriginal(og, c) && Mirrors(og, a, s, o)
    ensures Mirrors(og, Final(og, c, a), RunCode(m, c, s), RunOps(m, Original(og, c), o))
  {
    if c != [] {
      var op, rest := c[0].op, c[1..];
      var s' := Step(m, op, s);
      if op.Plain? {
        PlainMirrors(m, og, op, a, s, o);
        assert Original(og, c)[0] == op.Substitute(og) && Original(og, c)[1..] == Original(og, rest);
        hide Mirrors, After, Allowed, Step;
        SoundRuns(m, og, rest, After(og, op, a), s', Step(m, op.Substitute(og), o));
      } else {
        assert GoodOp(og, op);
        assert Mirrors(og, After(og, op, a), s', o);
        assert Original(og, c) == Original(og, rest);
        hide Mirrors, After, Allowed, Step;
        SoundRuns(m, og, rest, After(og, op, a), s', o);
      }
    }
  }

  // ----- the rewriting of one register in a block

  /** What stays the same during the rewriting: the register, its original, the block and whether the
      register is live out of it, and where fresh registers begin.
   */
  datatype Task = Task(r: Reg, home: Reg, block: int, out: bool, unused: nat)

  /** The walk: the code written so far, whether the slot is wanted there, whether a replacement is
      in use there and up to where, the ranges recorded so far, and the next fresh register.
   */
  datatype Walk = Walk(tail: code, want: bool, have: bool, cur: Reg, lastUse: real, ranges: seq<Piece>, next: nat)

  predicate Replacing(t: Task, r: Reg) { r.id >= t.unused }

  /** An instruction with the replacement for the register. */
  function Renaming(t: Task, cur: Reg): Reg -> Reg { r => if r == t.r then cur else r }

  /** A replacement is taken up where none is in use. */
  function TakeUp(t: Task, w: Walk): Walk {
    if w.have then w else w.(cur := Reg(t.r.space, w.next), next := w.next + 1)
  }

  /** Puts an instruction that may write and read the replacement before the code written so far. */
  function Push(t: Task, w: Walk, p: Placed): Walk {
    var writing, reading := p.op.Writes(w.cur), w.cur in p.op.Ins();
    var left := w.have && !writing;
    w.(tail := [p] + w.tail,
       ranges := if writing then w.ranges + [Piece(t.block, w.cur, Range(p.pos, w.lastUse))] else w.ranges,
       have := left || reading,
       lastUse := if left then w.lastUse else p.pos)
  }

  function Between(a: real, b: real): real { (a + b) / 2.0 }

  /** A store of the replacement, which provides the slot. */
  function PushStore(t: Task, w: Walk, pos: real): Walk { Push(t, w, Placed(pos, Store(w.cur, t.home))).(want := false) }

  /** A reload of the replacement, which needs the slot. */
  function PushReload(t: Task, w: Walk, pos: real): Walk { Push(t, w, Placed(pos, Reload(w.cur, t.home))).(want := true) }

  /** The instruction with the replacement; what it writes itself need not be in the slot before it. */
  function PushRenamed(t: Task, w: Walk, p: Placed): Walk {
    Push(t, w, Placed(p.pos, p.op.Substitute(Renaming(t, w.cur)))).(want := w.want && !p.op.Writes(t.r))
  }

  /** An instruction that writes the register; a reload is dropped where its value goes to the slot. */
  function AtOutput(t: Task, w: Walk, p: Placed): Walk
    requires w.tail != []
  {
    if w.want && p.op.Reload? && !w.have then w.(want := false)
    else
      var stored := if w.want && !p.op.Reload? then PushStore(t, w, Between(p.pos, w.tail[0].pos)) else w;
      PushRenamed(t, stored, p)
  }

  /** An instruction that reads the register and does not write it; a store is dropped where its
      value comes from the slot.
   */
  function AtInput(t: Task, w: Walk, p: Placed, reload: bool): Walk {
    if reload && p.op.Store? then w.(want := true) else PushRenamed(t, w, p)
  }

  /** An instruction that mentions the register, after one at position before. */
  function AtOccurrence(t: Task, w: Walk, p: Placed, before: real, reload: bool): Walk
    requires p.op.Writes(t.r) ==> w.tail != []
  {
    var u := TakeUp(t, w);
    var v := if p.op.Writes(t.r) then AtOutput(t, u, p) else AtInput(t, u, p, reload);
    if t.r in p.op.Ins() && reload && v.have then PushReload(t, v, Between(before, p.pos)) else v
  }

  function AtOther(w: Walk, p: Placed): Walk { w.(tail := [p] + w.tail) }

  // ----- registers other than the spilled one and its replacements

  /** Every value that is written to the register is used. */
  predicate NoDead(c: code, r: Reg, end: bool) {
    c == [] || ((r in c[0].op.Outs() ==> Wanted(c[1..], r, end)) && NoDead(c[1..], r, end))
  }

  /** For register v the rewritten code needs no more than the code. */
  ghost predicate SameFor(tail: code, s: code, v: Reg) {
    && (forall e :: Wanted(tail, v, e) == Wanted(s, v, e))
    && (forall e, stop, t :: Needed(tail, v, e, stop, t) ==> Needed(s, v, e, stop, t))
    && (forall e :: NoDead(s, v, e) ==> NoDead(tail, v, e))
  }

  /** The same instruction, up to the spilled register, before both. */
  lemma SameCons(tail: code, s: code, v: Reg, p: Placed, p': Placed)
    requires SameFor(tail, s, v) && p.pos == p'.pos
    requires (v in p'.op.Ins() <==> v in p.op.Ins()) && (v in p'.op.Outs() <==> v in p.op.Outs()) && p'.op.Clobbers() == p.op.Clobbers()
    ensures SameFor([p'] + tail, [p] + s, v)
  {
    assert ([p'] + tail)[1..] == tail && ([p] + s)[1..] == s;
    forall e
      ensures Wanted([p'] + tail, v, e) == Wanted([p] + s, v, e)
      ensures NoDead([p] + s, v, e) ==> NoDead([p'] + tail, v, e)
    {
      assert Wanted(tail, v, e) == Wanted(s, v, e);
    }
    forall e, stop, t | Needed([p'] + tail, v, e, stop, t) ensures Needed([p] + s, v, e, stop, t) {
      NeededCons(p', tail, v, e, stop, t);
      NeededCons(p, s, v, e, stop, t);
    }
  }

  /** One more instruction that does not concern v. */
  lemma SameExtra(tail: code, s: code, v: Reg, x: Placed)
    requires SameFor(tail, s, v) && tail != [] && x.pos < tail[0].pos && !x.op.Mentions(v)
    ensures SameFor([x] + tail, s, v)
  {
    assert ([x] + tail)[1..] == tail;
    forall e ensures Wanted([x] + tail, v, e) == Wanted(s, v, e) {
      assert Wanted(tail, v, e) == Wanted(s, v, e);
    }
    forall e, stop, t | Needed([x] + tail, v, e, stop, t) ensures Needed(s, v, e, stop, t) {
      assert Needed(tail, v, e, stop, t);
    }
  }

  /** One instruction less that does not concern v. */
  lemma SameDrop(tail: code, s: code, v: Reg, p: Placed)
    requires SameFor(tail, s, v) && tail != [] && p.pos < tail[0].pos && !p.op.Mentions(v)
    ensures SameFor(tail, [p] + s, v)
  {
    assert ([p] + s)[1..] == s;
    forall e ensures Wanted(tail, v, e) == Wanted([p] + s, v, e) {
      assert Wanted(tail, v, e) == Wanted(s, v, e);
    }
    forall e, stop, t | Needed(tail, v, e, stop, t) ensures Needed([p] + s, v, e, stop, t) {
      assert Wanted(tail, v, e) == Wanted(s, v, e);
      assert Needed(s, v, e, stop, t);
    }
  }

  // ----- the replacements

  ghost predicate RangeOf(ranges: seq<Piece>, n: Reg, t: real) { exists i :: 0 <= i < |ranges| && ranges[i].reg == n && ranges[i].range.Covers(t) }

  lemma RangeAppend(ranges: seq<Piece>, q: Piece, n: Reg, t: real)
    ensures RangeOf(ranges + [q], n, t) <==> RangeOf(ranges, n, t) || (q.reg == n && q.range.Covers(t))
  {
    if RangeOf(ranges, n, t) {
      var i :| 0 <= i < |ranges| && ranges[i].reg == n && ranges[i].range.Covers(t);
      assert (ranges + [q])[i] == ranges[i];
    }
    assert (ranges + [q])[|ranges|] == q;
  }

  /** Only the current replacement may be wanted; what replacements need is covered by their ranges,
      or up to the last use of the current one; none is written in vain.
   */
  ghost predicate Replaced(t: Task, stop: real, w: Walk) {
    && (w.have ==> Replacing(t, w.cur) && w.tail != [] && w.tail[0].pos <= w.lastUse)
    && forall n {:trigger Replacing(t, n)} :: Replacing(t, n) ==> ReplacedBy(t, stop, w, n)
  }

  ghost predicate ReplacedBy(t: Task, stop: real, w: Walk, n: Reg) {
    && (Wanted(w.tail, n, false) <==> w.have && n == w.cur)
    && NoDead(w.tail, n, false)
    && forall at {:trigger Needed(w.tail, n, false, stop, at)} ::
         Needed(w.tail, n, false, stop, at) ==> RangeOf(w.ranges, n, at) || (w.have && n == w.cur && at < w.lastUse)
  }

  lemma PushReplaced(t: Task, stop: real, w: Walk, p: Placed)
    requires Replaced(t, stop, w) && Replacing(t, w.cur) && (w.tail != [] ==> p.pos < w.tail[0].pos)
    requires forall n :: Replacing(t, n) && p.op.Mentions(n) ==> n == w.cur
    requires w.cur !in p.op.Clobbers() && (w.cur in p.op.Outs() ==> w.have)
    ensures Replaced(t, stop, Push(t, w, p))
  {
    var w' := Push(t, w, p);
    forall n | Replacing(t, n) ensures ReplacedBy(t, stop, w', n) {
      assert ReplacedBy(t, stop, w, n);
      PushReplacedBy(t, stop, w, p, n);
    }
  }

  lemma PushReplacedBy(t: Task, stop: real, w: Walk, p: Placed, n: Reg)
    requires Replaced(t, stop, w) && (w.tail != [] ==> p.pos < w.tail[0].pos) && ReplacedBy(t, stop, w, n)
    requires p.op.Mentions(n) ==> n == w.cur
    requires w.cur !in p.op.Clobbers() && (w.cur in p.op.Outs() ==> w.have)
    ensures ReplacedBy(t, stop, Push(t, w, p), n)
  {
    var w' := Push(t, w, p);
    WantedCons(p, w.tail, n, false);
    assert w'.tail[1..] == w.tail;
    forall at {:trigger Needed(w'.tail, n, false, stop, at)} | Needed(w'.tail, n, false, stop, at)
      ensures RangeOf(w'.ranges, n, at) || (w'.have && n == w'.cur && at < w'.lastUse)
    {
      NeededCons(p, w.tail, n, false, stop, at);
      if p.op.Writes(w.cur) { RangeAppend(w.ranges, Piece(t.block, w.cur, Range(p.pos, w.lastUse)), n, at); }
      assert Needed(w.tail, n, false, stop, at) ==> RangeOf(w.ranges, n, at) || (w.have && n == w.cur && at < w.lastUse);
    }
  }

  lemma TakeUpReplaced(t: Task, stop: real, w: Walk)
    requires Replaced(t, stop, w) && w.next >= t.unused
    ensures Replaced(t, stop, TakeUp(t, w)) && Replacing(t, TakeUp(t, w).cur)
  {
    var u := TakeUp(t, w);
    forall n | Replacing(t, n) ensures ReplacedBy(t, stop, u, n) {
      assert ReplacedBy(t, stop, w, n);
    }
  }

  // ----- availability in the rewritten code

  /** Locations that the rewritten code may rely on. */
  ghost function Carried(t: Task, a: iset<Loc>, d: iset<Loc>): iset<Loc> { (iset l | l in a && l != InReg(t.r)) + d }

  /** Where the value must be: in the slot, in the current replacement, or both. */
  ghost function Demand(t: Task, want: bool, have: bool, cur: Reg): iset<Loc> {
    (if want then iset{OnStack(t.home)} else iset{}) + (if have then iset{InReg(cur)} else iset{})
  }

  /** Sound code that leaves r available where it is live out. */
  ghost predicate SoundTo(og: Reg -> Reg, t: Task, s: code, a: iset<Loc>) {
    Sound(og, s, a) && (t.out ==> InReg(t.r) in Final(og, s, a))
  }

  /** The rewritten tail does the work of the tail, given its demand. */
  ghost predicate Rewrites(og: Reg -> Reg, t: Task, tail: code, s: code, d: iset<Loc>) {
    && Original(og, tail) == Original(og, s)
    && forall a {:trigger SoundTo(og, t, s, a)} :: SoundTo(og, t, s, a) ==>
         && Sound(og, tail, Carried(t, a, d))
         && Carried(t, Final(og, s, a), Demand(t, t.out, false, t.r)) <= Final(og, tail, Carried(t, a, d))
  }

  lemma {:induction false} WantedAvailable(og: Reg -> Reg, t: Task, s: code, a: iset<Loc>)
    requires SoundTo(og, t, s, a) && Wanted(s, t.r, t.out)
    ensures InReg(t.r) in a
  {
    if s != [] && t.r !in s[0].op.Ins() {
      WantedAvailable(og, t, s[1..], After(og, s[0].op, a));
    } else if s != [] {
      assert s[0].op.Plain? ==> exists i :: 0 <= i < |s[0].op.ins| && s[0].op.ins[i] == t.r;
    }
  }

  lemma SoundToCons(og: Reg -> Reg, t: Task, p: Placed, s: code, a: iset<Loc>)
    requires SoundTo(og, t, [p] + s, a)
    ensures Allowed(p.op, a) && SoundTo(og, t, s, After(og, p.op, a)) && Final(og, [p] + s, a) == Final(og, s, After(og, p.op, a))
  {
    SoundCons(og, p, s, a);
  }

  /** A register may be taken along where the new code starts with more than the old code left it. */
  lemma RewriteWith(og: Reg -> Reg, t: Task, tail: code, s: code, d: iset<Loc>, a: iset<Loc>, b: iset<Loc>)
    requires Rewrites(og, t, tail, s, d) && SoundTo(og, t, s, a) && Carried(t, a, d) <= b
    ensures Sound(og, tail, b) && Carried(t, Final(og, s, a), Demand(t, t.out, false, t.r)) <= Final(og, tail, b)
  {
    hide Carried, Demand;
    MoreAvailable(og, tail, Carried(t, a, d), b);
  }

  /** A store before the rewritten code provides the slot from the replacement. */
  lemma StoreRewrites(og: Reg -> Reg, t: Task, tail: code, s: code, have: bool, cur: Reg, pos: real)
    requires Rewrites(og, t, tail, s, Demand(t, true, have, cur))
    ensures Rewrites(og, t, [Placed(pos, Store(cur, t.home))] + tail, s, Demand(t, false, true, cur))
  {
    var p, d := Placed(pos, Store(cur, t.home)), Demand(t, false, true, cur);
    assert ([p] + tail)[1..] == tail;
    forall a {:trigger SoundTo(og, t, s, a)} | SoundTo(og, t, s, a)
      ensures Sound(og, [p] + tail, Carried(t, a, d))
      ensures Carried(t, Final(og, s, a), Demand(t, t.out, false, t.r)) <= Final(og, [p] + tail, Carried(t, a, d))
    {
      SoundCons(og, p, tail, Carried(t, a, d));
      RewriteWith(og, t, tail, s, Demand(t, true, have, cur), a, After(og, p.op, Carried(t, a, d)));
    }
  }

  /** A reload before the rewritten code provides the replacement from the slot. */
  lemma ReloadRewrites(og: Reg -> Reg, t: Task, tail: code, s: code, want: bool, cur: Reg, pos: real)
    requires Rewrites(og, t, tail, s, Demand(t, want, true, cur))
    ensures Rewrites(og, t, [Placed(pos, Reload(cur, t.home))] + tail, s, Demand(t, true, false, cur))
  {
    var p, d := Placed(pos, Reload(cur, t.home)), Demand(t, true, false, cur);
    assert ([p] + tail)[1..] == tail;
    forall a {:trigger SoundTo(og, t, s, a)} | SoundTo(og, t, s, a)
      ensures Sound(og, [p] + tail, Carried(t, a, d))
      ensures Carried(t, Final(og, s, a), Demand(t, t.out, false, t.r)) <= Final(og, [p] + tail, Carried(t, a, d))
    {
      SoundCons(og, p, tail, Carried(t, a, d));
      RewriteWith(og, t, tail, s, Demand(t, want, true, cur), a, After(og, p.op, Carried(t, a, d)));
    }
  }

  /** What stems from the same register as the spilled one. */
  ghost predicate Stems(og: Reg -> Reg, t: Task) {
    og(t.r) == t.home && t.r.id < t.unused && forall q :: Replacing(t, q) ==> og(q) == t.home
  }

  ghost predicate Below(op: Op, n: nat) { forall q :: op.Mentions(q) ==> q.id < n }

  /** What the instruction provides, renamed: everything it provided, with the replacement for r. */
  lemma RenamedAfter(og: Reg -> Reg, t: Task, op: Op, cur: Reg, a: iset<Loc>, d0: iset<Loc>, d1: iset<Loc>)
    requires Stems(og, t) && GoodOp(og, op) && Below(op, t.unused) && Replacing(t, cur) && Allowed(op, a) && t.r !in op.Clobbers()
    requires t.r in op.Ins() ==> InReg(cur) in d0
    requires forall l :: l in d1 ==> Home(og, l) == t.home
    requires forall l :: l in d1 ==> (op.Writes(t.r) && l == InReg(cur)) || (l in d0 && !Kills(og, op, t.home)) || (op.Reload? && (l in d0 || (l in a && l.OnStack?)))
    ensures Allowed(op.Substitute(Renaming(t, cur)), Carried(t, a, d0))
    ensures Carried(t, After(og, op, a), d1) <= After(og, op.Substitute(Renaming(t, cur)), Carried(t, a, d0))
  {
    var f := Renaming(t, cur);
    var op' := op.Substitute(f);
    if op.Plain? {
      forall i | 0 <= i < |op'.ins| ensures InReg(op'.ins[i]) in Carried(t, a, d0) {
        assert InReg(op.ins[i]) in a && op.Mentions(op.ins[i]);
      }
      RenamedKills(og, t, op, cur);
      forall l | l in Carried(t, After(og, op, a), d1) ensures l in After(og, op', Carried(t, a, d0)) {
        RenamedWrites(t, op, cur);
        hide Kills;
        if l.InReg? && op.Writes(l.reg) && l.reg != t.r { assert op'.Writes(l.reg); }
      }
    }
  }

  lemma RenamedWrites(t: Task, op: Op, cur: Reg)
    requires op.Plain? && t.r !in op.clobbers && cur !in op.clobbers
    ensures forall q :: op.Substitute(Renaming(t, cur)).Writes(q) <==> (q != t.r && op.Writes(q)) || (q == cur && op.Writes(t.r))
  {
  }

  lemma RenamedKills(og: Reg -> Reg, t: Task, op: Op, cur: Reg)
    requires Stems(og, t) && op.Plain? && Below(op, t.unused) && Replacing(t, cur)
    ensures forall h :: Kills(og, op.Substitute(Renaming(t, cur)), h) <==> Kills(og, op, h)
  {
  }

  lemma RenamedOriginal(og: Reg -> Reg, t: Task, p: Placed, cur: Reg, tail: code, s: code)
    requires Stems(og, t) && Replacing(t, cur) && Original(og, tail) == Original(og, s) && t.r !in p.op.Clobbers()
    ensures Original(og, [Placed(p.pos, p.op.Substitute(Renaming(t, cur)))] + tail) == Original(og, [p] + s)
  {
    var p' := Placed(p.pos, p.op.Substitute(Renaming(t, cur)));
    assert ([p'] + tail)[1..] == tail && ([p] + s)[1..] == s;
    if p.op.Plain? {
      assert Renamed(p'.op.ins, og) == Renamed(p.op.ins, og);
      assert Renamed(p'.op.outs, og) == Renamed(p.op.outs, og);
    }
  }

  /** The instruction with the replacement before the rewritten code. */
  lemma InstrRewrites(og: Reg -> Reg, t: Task, tail: code, s: code, p: Placed, cur: Reg, want: bool, have: bool)
    requires Stems(og, t) && GoodOp(og, p.op) && Below(p.op, t.unused) && Replacing(t, cur) && t.r !in p.op.Clobbers()
    requires Rewrites(og, t, tail, s, Demand(t, want, have, cur)) && (want || have ==> Wanted(s, t.r, t.out))
    requires p.op.Writes(t.r) && want ==> p.op.Reload?
    ensures Rewrites(og, t, [Placed(p.pos, p.op.Substitute(Renaming(t, cur)))] + tail, [p] + s,
              Demand(t, want && !p.op.Writes(t.r), (have && !p.op.Writes(t.r)) || t.r in p.op.Ins(), cur))
  {
    var p' := Placed(p.pos, p.op.Substitute(Renaming(t, cur)));
    var d0, d1 := Demand(t, want && !p.op.Writes(t.r), (have && !p.op.Writes(t.r)) || t.r in p.op.Ins(), cur), Demand(t, want, have, cur);
    RenamedOriginal(og, t, p, cur, tail, s);
    forall a {:trigger SoundTo(og, t, [p] + s, a)} | SoundTo(og, t, [p] + s, a)
      ensures Sound(og, [p'] + tail, Carried(t, a, d0))
      ensures Carried(t, Final(og, [p] + s, a), Demand(t, t.out, false, t.r)) <= Final(og, [p'] + tail, Carried(t, a, d0))
    {
      SoundToCons(og, t, p, s, a);
      var b := After(og, p.op, a);
      if want || have { WantedAvailable(og, t, s, b); }
      StillThere(og, t, p.op, a, want, have, cur);
      hide Rewrites, Sound, Final, Demand, Carried, After, Allowed, GoodOp, Original, Kills;
      RenamedAfter(og, t, p.op, cur, a, d0, d1);
      SoundCons(og, p', tail, Carried(t, a, d0));
      RewriteWith(og, t, tail, s, d1, b, After(og, p'.op, Carried(t, a, d0)));
    }
  }

  /** Where the value is wanted after the instruction, it was there before or is written by it. */
  lemma StillThere(og: Reg -> Reg, t: Task, op: Op, a: iset<Loc>, want: bool, have: bool, cur: Reg)
    requires Stems(og, t) && GoodOp(og, op) && Allowed(op, a) && Replacing(t, cur) && t.r !in op.Clobbers()
    requires (want || have ==> InReg(t.r) in After(og, op, a)) && (op.Writes(t.r) && want ==> op.Reload?)
    ensures var d0, d1 := Demand(t, want && !op.Writes(t.r), (have && !op.Writes(t.r)) || t.r in op.Ins(), cur), Demand(t, want, have, cur);
      && (t.r in op.Ins() ==> InReg(cur) in d0)
      && (forall l :: l in d1 ==> Home(og, l) == t.home)
      && forall l :: l in d1 ==> (op.Writes(t.r) && l == InReg(cur)) || (l in d0 && !Kills(og, op, t.home)) || (op.Reload? && (l in d0 || (l in a && l.OnStack?)))
  {
  }

  /** Nothing of a store of the register, where the slot is wanted before it. */
  lemma DropStoreRewrites(og: Reg -> Reg, t: Task, tail: code, s: code, p: Placed, want: bool, have: bool, cur: Reg)
    requires Stems(og, t) && Rewrites(og, t, tail, s, Demand(t, want, have, cur)) && p.op == Store(t.r, t.home)
    ensures Rewrites(og, t, tail, [p] + s, Demand(t, true, have, cur))
  {
    var d := Demand(t, true, have, cur);
    assert ([p] + s)[1..] == s;
    forall a {:trigger SoundTo(og, t, [p] + s, a)} | SoundTo(og, t, [p] + s, a)
      ensures Sound(og, tail, Carried(t, a, d))
      ensures Carried(t, Final(og, [p] + s, a), Demand(t, t.out, false, t.r)) <= Final(og, tail, Carried(t, a, d))
    {
      SoundToCons(og, t, p, s, a);
      RewriteWith(og, t, tail, s, Demand(t, want, have, cur), After(og, p.op, a), Carried(t, a, d));
    }
  }

  /** Nothing of a reload of the register, where only the slot is wanted after it. */
  lemma DropReloadRewrites(og: Reg -> Reg, t: Task, tail: code, s: code, p: Placed, cur: Reg)
    requires Stems(og, t) && Rewrites(og, t, tail, s, Demand(t, true, false, cur)) && p.op == Reload(t.r, t.home)
    ensures Rewrites(og, t, tail, [p] + s, Demand(t, false, false, cur))
  {
    var d := Demand(t, false, false, cur);
    assert ([p] + s)[1..] == s;
    forall a {:trigger SoundTo(og, t, [p] + s, a)} | SoundTo(og, t, [p] + s, a)
      ensures Sound(og, tail, Carried(t, a, d))
      ensures Carried(t, Final(og, [p] + s, a), Demand(t, t.out, false, t.r)) <= Final(og, tail, Carried(t, a, d))
    {
      SoundToCons(og, t, p, s, a);
      RewriteWith(og, t, tail, s, Demand(t, true, false, cur), After(og, p.op, a), Carried(t, a, d));
    }
  }

  // ----- the walk keeps all of this

  /** An instruction of the rewritten code. */
  ghost predicate OpOk(max: int, og: Reg -> Reg, t: Task, next: nat, op: Op) {
    && GoodOp(og, op) && ClobbersKept(og, op) && Below(op, next) && !op.Mentions(t.r)
    && forall q :: q in op.Clobbers() ==> Physical(max, q)
  }

  ghost predicate RangeOk(t: Task, next: nat, q: Piece) {
    q.block == t.block && q.reg.space == t.r.space && t.unused <= q.reg.id < next && q.range.begin <= q.range.end
  }

  /** The rewritten code is in order after floor, and ends as the code does. */
  ghost predicate Shape(max: int, og: Reg -> Reg, t: Task, floor: real, s: code, w: Walk) {
    && t.unused <= w.next && (w.have ==> w.cur.id < w.next && w.cur.space == t.r.space)
    && Increasing(w.tail, floor)
    && (forall k :: 0 <= k < |w.tail| ==> OpOk(max, og, t, w.next, w.tail[k].op))
    && (forall i :: 0 <= i < |w.ranges| ==> RangeOk(t, w.next, w.ranges[i]))
    && (s != [] ==> w.tail != [] && LastPos(w.tail) == LastPos(s) && w.tail[|w.tail| - 1].op.Quiet())
  }

  ghost predicate Others(t: Task, tail: code, s: code) { forall v {:trigger SameFor(tail, s, v)} :: v != t.r && v.id < t.unused ==> SameFor(tail, s, v) }

  ghost predicate Link(max: int, og: Reg -> Reg, t: Task, stop: real, floor: real, s: code, w: Walk) {
    && Rewrites(og, t, w.tail, s, Demand(t, w.want, w.have, w.cur))
    && (Wanted(s, t.r, t.out) <==> w.want || w.have)
    && Others(t, w.tail, s) && Replaced(t, stop, w) && Shape(max, og, t, floor, s, w)
  }

  /** The replacement of an instruction is in use or has just been taken up. */
  ghost predicate Current(t: Task, w: Walk) { Replacing(t, w.cur) && w.cur.id < w.next && w.cur.space == t.r.space }

  lemma LinkTakeUp(max: int, og: Reg -> Reg, t: Task, stop: real, floor: real, s: code, w: Walk)
    requires Link(max, og, t, stop, floor, s, w)
    ensures Link(max, og, t, stop, floor, s, TakeUp(t, w)) && Current(t, TakeUp(t, w))
  {
    TakeUpReplaced(t, stop, w);
    assert Demand(t, w.want, false, w.cur) == Demand(t, w.want, false, Reg(t.r.space, w.next));
    hide Rewrites, Others, Replaced, Increasing;
  }

  lemma PushIncreasing(p: Placed, tail: code, floor: real, below: real)
    requires Increasing(tail, floor) && below < p.pos && (tail != [] ==> p.pos < tail[0].pos)
    ensures Increasing([p] + tail, below)
  {
    assert ([p] + tail)[1..] == tail;
    assert Increasing(tail, p.pos);
  }

  lemma PushOps(max: int, og: Reg -> Reg, t: Task, next: nat, p: Placed, tail: code)
    requires OpOk(max, og, t, next, p.op) && forall k :: 0 <= k < |tail| ==> OpOk(max, og, t, next, tail[k].op)
    ensures forall k :: 0 <= k < |[p] + tail| ==> OpOk(max, og, t, next, ([p] + tail)[k].op)
  {
  }

  lemma PushRanges(t: Task, next: nat, ranges: seq<Piece>, q: Piece)
    requires RangeOk(t, next, q) && forall i :: 0 <= i < |ranges| ==> RangeOk(t, next, ranges[i])
    ensures forall i :: 0 <= i < |ranges + [q]| ==> RangeOk(t, next, (ranges + [q])[i])
  {
  }

  lemma PushShape(max: int, og: Reg -> Reg, t: Task, floor: real, below: real, s: code, s': code, w: Walk, p: Placed)
    requires Shape(max, og, t, floor, s, w) && Current(t, w) && OpOk(max, og, t, w.next, p.op)
    requires below < p.pos && (w.tail != [] ==> p.pos < w.tail[0].pos)
    requires p.op.Writes(w.cur) ==> p.pos <= w.lastUse
    requires s' != [] && if s == [] then w.tail == [] && p.op.Quiet() && LastPos(s') == p.pos else LastPos(s') == LastPos(s)
    ensures Shape(max, og, t, below, s', Push(t, w, p))
  {
    hide OpOk, RangeOk, Increasing;
    PushIncreasing(p, w.tail, floor, below);
    PushOps(max, og, t, w.next, p, w.tail);
    if p.op.Writes(w.cur) {
      var q := Piece(t.block, w.cur, Range(p.pos, w.lastUse));
      assert RangeOk(t, w.next, q) by { RangeMade(t, w, p.pos); }
      PushRanges(t, w.next, w.ranges, q);
    }
    LastAfter(p, w.tail);
    assert w.tail != [] ==> ([p] + w.tail)[|w.tail|] == w.tail[|w.tail| - 1];
  }

  lemma RangeMade(t: Task, w: Walk, pos: real)
    requires Current(t, w) && pos <= w.lastUse
    ensures RangeOk(t, w.next, Piece(t.block, w.cur, Range(pos, w.lastUse)))
  {
  }

  lemma PushOthers(t: Task, tail: code, s: code, x: Placed)
    requires Others(t, tail, s) && tail != [] && x.pos < tail[0].pos
    requires forall v :: v != t.r && v.id < t.unused ==> !x.op.Mentions(v)
    ensures Others(t, [x] + tail, s)
  {
    forall v | v != t.r && v.id < t.unused ensures SameFor([x] + tail, s, v) {
      assert SameFor(tail, s, v);
      SameExtra(tail, s, v, x);
    }
  }

  lemma DropOthers(t: Task, tail: code, s: code, p: Placed)
    requires Others(t, tail, s) && tail != [] && p.pos < tail[0].pos
    requires forall v :: v != t.r && p.op.Mentions(v) ==> v.id >= t.unused
    ensures Others(t, tail, [p] + s)
  {
    forall v | v != t.r && v.id < t.unused ensures SameFor(tail, [p] + s, v) {
      assert SameFor(tail, s, v);
      SameDrop(tail, s, v, p);
    }
  }

  lemma InstrOthers(t: Task, tail: code, s: code, p: Placed, cur: Reg)
    requires Others(t, tail, s) && Replacing(t, cur)
    ensures Others(t, [Placed(p.pos, p.op.Substitute(Renaming(t, cur)))] + tail, [p] + s)
  {
    var p' := Placed(p.pos, p.op.Substitute(Renaming(t, cur)));
    forall v | v != t.r && v.id < t.unused ensures SameFor([p'] + tail, [p] + s, v) {
      assert SameFor(tail, s, v);
      RenamedMentions(t, p.op, cur, v);
      SameCons(tail, s, v, p, p');
    }
  }

  lemma RenamedMentions(t: Task, op: Op, cur: Reg, v: Reg)
    requires v != t.r && v != cur
    ensures var o := op.Substitute(Renaming(t, cur));
      && (v in o.Ins() <==> v in op.Ins()) && (v in o.Outs() <==> v in op.Outs()) && o.Clobbers() == op.Clobbers()
  {
    var f := Renaming(t, cur);
    RenamedMembers(t, op.Ins(), cur, v);
    RenamedMembers(t, op.Outs(), cur, v);
  }

  lemma RenamedMembers(t: Task, rs: seq<Reg>, cur: Reg, v: Reg)
    requires v != t.r && v != cur
    ensures v in Renamed(rs, Renaming(t, cur)) <==> v in rs
  {
    var q := Renamed(rs, Renaming(t, cur));
    if v in rs {
      var i :| 0 <= i < |rs| && rs[i] == v;
      assert q[i] == v;
    }
  }

  lemma SlotOpOk(max: int, og: Reg -> Reg, t: Task, w: Walk, op: Op)
    requires Current(t, w) && Stems(og, t) && (op == Store(w.cur, t.home) || op == Reload(w.cur, t.home))
    ensures OpOk(max, og, t, w.next, op)
  {
    assert op.Clobbers() == {} && (forall q :: op.Mentions(q) <==> q == w.cur);
  }

  /** A store of the replacement, for the slot. */
  lemma LinkStore(max: int, og: Reg -> Reg, t: Task, stop: real, floor: real, below: real, s: code, w: Walk, pos: real)
    requires Link(max, og, t, stop, floor, s, w) && Current(t, w) && Stems(og, t) && w.want && s != []
    requires below < pos && w.tail != [] && pos < w.tail[0].pos
    ensures var w' := PushStore(t, w, pos); Link(max, og, t, stop, below, s, w') && Current(t, w') && w'.have && w'.tail[0].pos == pos
  {
    var x := Placed(pos, Store(w.cur, t.home));
    SlotOpOk(max, og, t, w, x.op);
    hide Rewrites, Others, Replaced, Shape, Demand, Increasing, OpOk;
    StoreRewrites(og, t, w.tail, s, w.have, w.cur, pos);
    PushOthers(t, w.tail, s, x);
    PushReplaced(t, stop, w, x);
    PushShape(max, og, t, floor, below, s, s, w, x);
    SameShape(max, og, t, stop, below, s, Push(t, w, x), false);
  }

  /** Shape and ranges do not depend on what is wanted. */
  lemma SameShape(max: int, og: Reg -> Reg, t: Task, stop: real, floor: real, s: code, w: Walk, want: bool)
    requires Shape(max, og, t, floor, s, w) && Replaced(t, stop, w)
    ensures Shape(max, og, t, floor, s, w.(want := want)) && Replaced(t, stop, w.(want := want))
  {
    forall n | Replacing(t, n) ensures ReplacedBy(t, stop, w.(want := want), n) {
      assert ReplacedBy(t, stop, w, n);
    }
  }

  /** A reload of the replacement, from the slot. */
  lemma LinkReload(max: int, og: Reg -> Reg, t: Task, stop: real, floor: real, below: real, s: code, w: Walk, pos: real)
    requires Link(max, og, t, stop, floor, s, w) && Current(t, w) && Stems(og, t) && w.have && s != []
    requires below < pos < w.lastUse && w.tail != [] && pos < w.tail[0].pos
    ensures Link(max, og, t, stop, below, s, PushReload(t, w, pos))
  {
    var x := Placed(pos, Reload(w.cur, t.home));
    SlotOpOk(max, og, t, w, x.op);
    hide Rewrites, Others, Replaced, Shape, Demand, Increasing, OpOk;
    ReloadRewrites(og, t, w.tail, s, w.want, w.cur, pos);
    PushOthers(t, w.tail, s, x);
    PushReplaced(t, stop, w, x);
    PushShape(max, og, t, floor, below, s, s, w, x);
    SameShape(max, og, t, stop, below, s, Push(t, w, x), true);
  }

  /** An instruction of the code to be rewritten. */
  ghost predicate Given(max: int, og: Reg -> Reg, t: Task, op: Op) {
    && GoodOp(og, op) && ClobbersKept(og, op) && Below(op, t.unused) && t.r !in op.Clobbers()
    && forall q :: q in op.Clobbers() ==> Physical(max, q)
  }

  lemma RenamedOk(max: int, og: Reg -> Reg, t: Task, op: Op, w: Walk)
    requires Given(max, og, t, op) && Stems(og, t) && Current(t, w) && t.unused <= w.next
    ensures var o := op.Substitute(Renaming(t, w.cur));
      && OpOk(max, og, t, w.next, o)
      && (forall n :: Replacing(t, n) && o.Mentions(n) ==> n == w.cur)
      && (w.cur in o.Outs() <==> op.Writes(t.r)) && (w.cur in o.Ins() <==> t.r in op.Ins()) && w.cur !in o.Clobbers()
      && (op.Quiet() ==> o.Quiet())
  {
    var f := Renaming(t, w.cur);
    var o := op.Substitute(f);
    forall q | o.Mentions(q) ensures q.id < w.next && q != t.r && (Replacing(t, q) ==> q == w.cur) {
      if q != w.cur {
        if q != t.r { RenamedMentions(t, op, w.cur, q); } else { RenamedAway(t, op, w.cur); }
        assert op.Mentions(q);
      }
    }
    RenamedTo(t, op.Ins(), w.cur);
    RenamedTo(t, op.Outs(), w.cur);
    assert !op.Mentions(w.cur);
    if op.Plain? { RenamedGood(og, t, op, w.cur); }
  }

  lemma RenamedTo(t: Task, rs: seq<Reg>, cur: Reg)
    requires cur !in rs
    ensures cur in Renamed(rs, Renaming(t, cur)) <==> t.r in rs
  {
    var q := Renamed(rs, Renaming(t, cur));
    if t.r in rs {
      var i :| 0 <= i < |rs| && rs[i] == t.r;
      assert q[i] == cur;
    }
  }

  lemma RenamedAway(t: Task, op: Op, cur: Reg)
    requires cur != t.r && t.r !in op.Clobbers()
    ensures !op.Substitute(Renaming(t, cur)).Mentions(t.r)
  {
  }

  lemma RenamedGood(og: Reg -> Reg, t: Task, op: Op, cur: Reg)
    requires op.Plain? && GoodOp(og, op) && Stems(og, t) && Replacing(t, cur) && Below(op, t.unused) && t.r !in op.Clobbers()
    ensures GoodOp(og, op.Substitute(Renaming(t, cur)))
  {
    RenamedWrites(t, op, cur);
    var o := op.Substitute(Renaming(t, cur));
    forall d, e | o.Writes(d) && o.Writes(e) && og(d) == og(e) ensures d == e {
      var d', e' := if d == cur then t.r else d, if e == cur then t.r else e;
      assert op.Writes(d') && op.Writes(e');
    }
  }

  /** The instruction itself. */
  lemma LinkInstr(max: int, og: Reg -> Reg, t: Task, stop: real, floor: real, below: real, s: code, w: Walk, p: Placed)
    requires Link(max, og, t, stop, floor, s, w) && Current(t, w) && Stems(og, t) && Given(max, og, t, p.op)
    requires below < p.pos && (w.tail != [] ==> p.pos < w.tail[0].pos)
    requires p.op.Writes(t.r) ==> w.have && (w.want ==> p.op.Reload?)
    requires s == [] ==> w.tail == [] && p.op.Quiet()
    ensures var w' := PushRenamed(t, w, p);
      && Link(max, og, t, stop, below, [p] + s, w') && Current(t, w') && w'.tail[0].pos == p.pos
      && (w'.have <==> (w.have && !p.op.Writes(t.r)) || t.r in p.op.Ins()) && (w'.have ==> p.pos <= w'.lastUse)
  {
    var x := Placed(p.pos, p.op.Substitute(Renaming(t, w.cur)));
    RenamedOk(max, og, t, p.op, w);
    WantedCons(p, s, t.r, t.out);
    LastAfter(p, s);
    UseAfter(t, stop, w, p.pos);
    var w' := Push(t, w, x);
    assert w'.have <==> (w.have && !p.op.Writes(t.r)) || t.r in p.op.Ins();
    hide Rewrites, Others, Replaced, Shape, Demand, Increasing, OpOk, GoodOp, Below, ClobbersKept;
    InstrRewrites(og, t, w.tail, s, p, w.cur, w.want, w.have);
    InstrOthers(t, w.tail, s, p, w.cur);
    PushReplaced(t, stop, w, x);
    PushShape(max, og, t, floor, below, s, [p] + s, w, x);
    SameShape(max, og, t, stop, below, [p] + s, w', w.want && !p.op.Writes(t.r));
  }

  lemma LastAfter(p: Placed, s: code)
    ensures LastPos([p] + s) == if s == [] then p.pos else LastPos(s)
  {
  }

  lemma UseAfter(t: Task, stop: real, w: Walk, pos: real)
    requires Replaced(t, stop, w) && (w.tail != [] ==> pos < w.tail[0].pos)
    ensures w.have ==> pos < w.lastUse
  {
  }

  /** Nothing of a store of the register. */
  lemma LinkDropStore(max: int, og: Reg -> Reg, t: Task, stop: real, floor: real, s: code, w: Walk, p: Placed)
    requires Link(max, og, t, stop, floor, s, w) && Stems(og, t) && p.op == Store(t.r, t.home)
    requires s != [] && w.tail != [] && p.pos < w.tail[0].pos
    ensures Link(max, og, t, stop, floor, [p] + s, w.(want := true))
  {
    WantedCons(p, s, t.r, t.out);
    LastAfter(p, s);
    DropOthers(t, w.tail, s, p);
    DropStoreRewrites(og, t, w.tail, s, p, w.want, w.have, w.cur);
    SameShape(max, og, t, stop, floor, s, w, true);
    hide Rewrites, Others, Replaced, Demand, Increasing, OpOk;
  }

  /** Nothing of a reload of the register. */
  lemma LinkDropReload(max: int, og: Reg -> Reg, t: Task, stop: real, floor: real, s: code, w: Walk, p: Placed)
    requires Link(max, og, t, stop, floor, s, w) && Stems(og, t) && p.op == Reload(t.r, t.home) && w.want && !w.have
    requires s != [] && w.tail != [] && p.pos < w.tail[0].pos
    ensures Link(max, og, t, stop, floor, [p] + s, w.(want := false))
  {
    WantedCons(p, s, t.r, t.out);
    LastAfter(p, s);
    DropOthers(t, w.tail, s, p);
    DropReloadRewrites(og, t, w.tail, s, p, w.cur);
    SameShape(max, og, t, stop, floor, s, w, false);
    hide Rewrites, Others, Replaced, Demand, Increasing, OpOk;
  }

  lemma NotRenamed(t: Task, op: Op, cur: Reg)
    requires !op.Mentions(t.r)
    ensures op.Substitute(Renaming(t, cur)) == op
  {
    if op.Plain? {
      assert Renamed(op.ins, Renaming(t, cur)) == op.ins && Renamed(op.outs, Renaming(t, cur)) == op.outs;
    }
  }

  /** An instruction that has nothing to do with the register stays. */
  lemma LinkOther(max: int, og: Reg -> Reg, t: Task, stop: real, floor: real, below: real, s: code, w: Walk, p: Placed)
    requires Link(max, og, t, stop, floor, s, w) && Stems(og, t) && Given(max, og, t, p.op) && !p.op.Mentions(t.r)
    requires below < p.pos && (w.tail != [] ==> p.pos < w.tail[0].pos)
    requires s == [] ==> w.tail == [] && p.op.Quiet()
    ensures Link(max, og, t, stop, below, [p] + s, AtOther(w, p))
  {
    hide Link;
    LinkTakeUp(max, og, t, stop, floor, s, w);
    var u := TakeUp(t, w);
    NotRenamed(t, p.op, u.cur);
    LinkInstr(max, og, t, stop, floor, below, s, u, p);
    var v := PushRenamed(t, u, p);
    if w.have {
      assert !p.op.Mentions(w.cur) by { assert Below(p.op, t.unused); }
      assert v == AtOther(w, p);
    } else {
      assert !p.op.Mentions(u.cur) by { assert Below(p.op, t.unused); }
      Unused(max, og, t, stop, below, [p] + s, v, w.cur, w.lastUse);
      assert v.(cur := w.cur, lastUse := w.lastUse).(next := w.next) == AtOther(w, p);
      FewerNames(max, og, t, stop, below, [p] + s, v.(cur := w.cur, lastUse := w.lastUse), w, p, floor, s);
    }
  }

  /** Without a replacement in use the current one does not matter. */
  lemma Unused(max: int, og: Reg -> Reg, t: Task, stop: real, floor: real, s: code, w: Walk, cur: Reg, lastUse: real)
    requires Link(max, og, t, stop, floor, s, w) && !w.have
    ensures Link(max, og, t, stop, floor, s, w.(cur := cur, lastUse := lastUse))
  {
    var v := w.(cur := cur, lastUse := lastUse);
    forall n | Replacing(t, n) ensures ReplacedBy(t, stop, v, n) {
      assert ReplacedBy(t, stop, w, n);
    }
    assert Demand(t, w.want, false, w.cur) == Demand(t, w.want, false, cur);
    hide Rewrites, Others, Increasing, OpOk, RangeOk, ReplacedBy;
  }

  /** Names that were not used need not be taken. */
  lemma FewerNames(max: int, og: Reg -> Reg, t: Task, stop: real, below: real, s': code, v: Walk, w: Walk, p: Placed, floor: real, s: code)
    requires Link(max, og, t, stop, below, s', v) && Link(max, og, t, stop, floor, s, w) && !w.have && !v.have
    requires v.tail == [p] + w.tail && v.ranges == w.ranges && Given(max, og, t, p.op) && !p.op.Mentions(t.r)
    ensures Link(max, og, t, stop, below, s', v.(next := w.next))
  {
    assert OpOk(max, og, t, w.next, p.op);
    PushOps(max, og, t, w.next, p, w.tail);
    var u := v.(next := w.next);
    forall n | Replacing(t, n) ensures ReplacedBy(t, stop, u, n) {
      assert ReplacedBy(t, stop, v, n);
    }
    hide Rewrites, Others, Increasing, OpOk, RangeOk, ReplacedBy;
  }

  /** An instruction that writes the register. */
  lemma LinkOutput(max: int, og: Reg -> Reg, t: Task, stop: real, below: real, s: code, w: Walk, p: Placed)
    requires Link(max, og, t, stop, p.pos, s, w) && Current(t, w) && Stems(og, t) && Given(max, og, t, p.op)
    requires below < p.pos && s != [] && w.tail != [] && p.pos < w.tail[0].pos && p.op.Writes(t.r) && (w.want || w.have)
    ensures var v := AtOutput(t, w, p);
      && Link(max, og, t, stop, below, [p] + s, v) && Current(t, v) && v.tail != [] && p.pos <= v.tail[0].pos
      && (v.have <==> t.r in p.op.Ins()) && (v.have ==> p.pos <= v.lastUse)
  {
    hide Link;
    if w.want && p.op.Reload? && !w.have {
      LinkDropReload(max, og, t, stop, p.pos, s, w, p);
      LinkLower(max, og, t, stop, p.pos, below, [p] + s, w.(want := false));
    } else if w.want && !p.op.Reload? {
      var pos := Between(p.pos, w.tail[0].pos);
      LinkStore(max, og, t, stop, p.pos, p.pos, s, w, pos);
      LinkInstr(max, og, t, stop, p.pos, below, s, PushStore(t, w, pos), p);
    } else {
      LinkInstr(max, og, t, stop, p.pos, below, s, w, p);
    }
  }

  lemma LinkLower(max: int, og: Reg -> Reg, t: Task, stop: real, floor: real, below: real, s: code, w: Walk)
    requires Link(max, og, t, stop, floor, s, w) && below <= floor
    ensures Link(max, og, t, stop, below, s, w)
  {
    hide Rewrites, Others, Replaced, OpOk, RangeOk;
  }

  /** An instruction that mentions the register. */
  lemma LinkOccurrence(max: int, og: Reg -> Reg, t: Task, stop: real, before: real, s: code, w: Walk, p: Placed, reload: bool)
    requires Link(max, og, t, stop, p.pos, s, w) && Stems(og, t) && Given(max, og, t, p.op) && p.op.Mentions(t.r)
    requires before < p.pos && (w.tail != [] ==> p.pos < w.tail[0].pos) && (p.op.Writes(t.r) ==> w.want || w.have)
    requires if s == [] then w.tail == [] && p.op.Quiet() else w.tail != []
    ensures Link(max, og, t, stop, before, [p] + s, AtOccurrence(t, w, p, before, reload))
    ensures AtOccurrence(t, w, p, before, reload).have ==> !reload
  {
    hide Link;
    LinkTakeUp(max, og, t, stop, p.pos, s, w);
    var u := TakeUp(t, w);
    var v := if p.op.Writes(t.r) then AtOutput(t, u, p) else AtInput(t, u, p, reload);
    if p.op.Writes(t.r) {
      LinkOutput(max, og, t, stop, before, s, u, p);
    } else if reload && p.op.Store? {
      LinkLastUse(max, og, t, stop, p.pos, s, u, p.pos);
      LinkDropStore(max, og, t, stop, p.pos, s, u, p);
      LinkLower(max, og, t, stop, p.pos, before, [p] + s, u.(want := true));
    } else {
      LinkInstr(max, og, t, stop, p.pos, before, s, u, p);
    }
    if t.r in p.op.Ins() && reload && v.have {
      LinkReload(max, og, t, stop, before, before, [p] + s, v, Between(before, p.pos));
    }
  }

  lemma LinkLastUse(max: int, og: Reg -> Reg, t: Task, stop: real, floor: real, s: code, w: Walk, pos: real)
    requires Link(max, og, t, stop, floor, s, w) && (w.tail != [] ==> pos < w.tail[0].pos)
    ensures w.have ==> pos < w.lastUse
  {
    UseAfter(t, stop, w, pos);
  }

  // ----- one block

  predicate Occurs(c: code, r: Reg) { exists k :: 0 <= k < |c| && c[k].op.Mentions(r) }

  /** The position before instruction k, or the beginning of the block. */
  function PosBefore(c: code, k: nat): real
    requires k <= |c|
  {
    if k == 0 then 0.0 else c[k - 1].pos
  }

  lemma LinkStart(max: int, og: Reg -> Reg, t: Task, stop: real, floor: real, next: nat)
    requires t.unused <= next
    ensures Link(max, og, t, stop, floor, [], Walk([], t.out, false, t.r, 0.0, [], next))
  {
    var w := Walk([], t.out, false, t.r, 0.0, [], next);
    forall v | v != t.r && v.id < t.unused ensures SameFor(w.tail, [], v) {}
    forall n | Replacing(t, n) ensures ReplacedBy(t, stop, w, n) {}
  }

  lemma {:induction false} NoDeadAt(c: code, k: nat, r: Reg, end: bool)
    requires k < |c| && NoDead(c, r, end)
    ensures r in c[k].op.Outs() ==> Wanted(c[k + 1..], r, end)
  {
    if k > 0 {
      NoDeadAt(c[1..], k - 1, r, end);
      assert c[1..][k..] == c[k + 1..];
    }
  }

  lemma OccursShorter(c: code, k: nat, r: Reg)
    requires k < |c| && !c[k].op.Mentions(r) && Occurs(c[..k + 1], r)
    ensures Occurs(c[..k], r)
  {
    var j :| 0 <= j < k + 1 && c[..k + 1][j].op.Mentions(r);
    assert c[..k][j] == c[j];
  }

  /** What the walk knows of its own state at instruction k. */
  lemma LinkFacts(max: int, og: Reg -> Reg, t: Task, stop: real, floor: real, s: code, w: Walk)
    requires Link(max, og, t, stop, floor, s, w)
    ensures (Wanted(s, t.r, t.out) <==> w.want || w.have) && (s != [] ==> w.tail != []) && (w.tail != [] ==> floor < w.tail[0].pos)
    ensures w.have ==> w.tail != []
  {
    hide Rewrites, Others, ReplacedBy;
  }

  lemma NextGrows(t: Task, w: Walk, p: Placed, before: real, reload: bool)
    requires p.op.Writes(t.r) ==> w.tail != []
    ensures w.next <= AtOccurrence(t, w, p, before, reload).next
  {
  }

  /** The state of the walk at instruction k. */
  ghost predicate Walking(max: int, og: Reg -> Reg, t: Task, c: code, k: nat, next: nat, w: Walk)
    requires k <= |c| && c != []
  {
    && Link(max, og, t, LastPos(c), PosBefore(c, k), c[k..], w) && next <= w.next
    && (w.have ==> Occurs(c[..k], t.r)) && (k == |c| ==> w.tail == [])
  }

  /** Whether the instruction at k is reloaded. */
  predicate Reloads(c: code, k: nat, r: Reg, overlaps: int -> bool)
    requires k <= |c|
  {
    !Occurs(c[..k], r) || overlaps(k)
  }

  // ----- where nothing stays in a register

  /** An instruction that reads the register and is reloaded; a store is dropped instead. */
  predicate Cut(c: code, i: int, r: Reg, overlaps: int -> bool) {
    0 <= i < |c| && r in c[i].op.Ins() && !c[i].op.Store? && Reloads(c, i, r, overlaps)
  }

  /** Where its reload goes. */
  function CutAt(c: code, i: int): real
    requires 0 <= i < |c|
  {
    Between(PosBefore(c, i), c[i].pos)
  }

  predicate Spans(range: Range, at: real) { range.begin < at < range.end }

  /** No range spans a position that has been passed, nor will the one in use. */
  ghost predicate Clear(w: Walk, at: real) {
    && w.tail != [] && w.tail[0].pos <= at && (w.have ==> w.lastUse <= at)
    && forall q :: 0 <= q < |w.ranges| ==> !Spans(w.ranges[q].range, at)
  }

  ghost predicate Begun(w: Walk) { forall q :: 0 <= q < |w.ranges| ==> w.tail != [] && w.tail[0].pos <= w.ranges[q].range.begin }

  lemma PushClear(t: Task, w: Walk, p: Placed, at: real)
    requires Begun(w) && (w.tail != [] ==> p.pos < w.tail[0].pos) && (p.op.Writes(w.cur) ==> w.have)
    ensures Begun(Push(t, w, p))
    ensures Clear(w, at) ==> Clear(Push(t, w, p), at)
  {
  }

  /** After an occurrence everything that was clear is, and so is its own reload. */
  lemma OccurrenceClear(t: Task, w: Walk, p: Placed, before: real, reload: bool, at: real)
    requires Begun(w) && before < p.pos && (w.tail != [] ==> p.pos < w.tail[0].pos) && t.r !in p.op.Clobbers()
    requires p.op.Writes(t.r) ==> w.tail != [] && (w.want || w.have)
    requires w.have ==> !p.op.Mentions(w.cur) && w.tail != []
    requires forall n: Reg :: p.op.Mentions(n) ==> n.id < w.next
    ensures var v := AtOccurrence(t, w, p, before, reload);
      && Begun(v) && (Clear(w, at) ==> Clear(v, at))
      && (t.r in p.op.Ins() && !p.op.Store? && reload ==> Clear(v, Between(before, p.pos)))
  {
    var u := TakeUp(t, w);
    assert !p.op.Mentions(u.cur);
    assert u.tail == w.tail && u.ranges == w.ranges && u.have == w.have && u.lastUse == w.lastUse && u.want == w.want;
    SameClear(w, u, at);
    hide Push, Begun, Clear, PushStore, PushRenamed, PushReload;
    if p.op.Writes(t.r) {
      var s := Between(p.pos, u.tail[0].pos);
      StoreClear(t, u, s, at);
      var stored := if u.want && !p.op.Reload? then PushStore(t, u, s) else u;
      if !(u.want && p.op.Reload? && !u.have) {
        RenamedClear(t, stored, p, at);
      }
    } else {
      RenamedClear(t, u, p, at);
    }
    var v := if p.op.Writes(t.r) then AtOutput(t, u, p) else AtInput(t, u, p, reload);
    SameClear(u, u.(want := true), at);
    SameClear(u, u.(want := false), at);
    if t.r in p.op.Ins() && reload && v.have {
      ReloadClear(t, v, p, before, at);
    }
  }

  lemma SameClear(w: Walk, v: Walk, at: real)
    requires v.tail == w.tail && v.ranges == w.ranges && v.have == w.have && v.lastUse == w.lastUse
    ensures (Begun(w) ==> Begun(v)) && (Clear(w, at) ==> Clear(v, at))
  {
  }

  lemma OtherClear(w: Walk, p: Placed, at: real)
    requires Begun(w) && (w.tail != [] ==> p.pos < w.tail[0].pos)
    ensures Begun(AtOther(w, p)) && (Clear(w, at) ==> Clear(AtOther(w, p), at))
  {
  }

  lemma StoreClear(t: Task, w: Walk, pos: real, at: real)
    requires Begun(w) && w.tail != [] && pos < w.tail[0].pos
    ensures var v := PushStore(t, w, pos); Begun(v) && v.have && v.tail[0].pos == pos && v.cur == w.cur && (Clear(w, at) ==> Clear(v, at))
  {
    PushClear(t, w, Placed(pos, Store(w.cur, t.home)), at);
  }

  lemma RenamedClear(t: Task, w: Walk, p: Placed, at: real)
    requires Begun(w) && (w.tail != [] ==> p.pos < w.tail[0].pos) && !p.op.Mentions(w.cur) && t.r !in p.op.Clobbers()
    requires p.op.Writes(t.r) ==> w.have
    ensures var v := PushRenamed(t, w, p);
      && Begun(v) && v.tail != [] && v.tail[0].pos == p.pos && v.cur == w.cur && (Clear(w, at) ==> Clear(v, at))
      && (t.r in p.op.Ins() ==> v.have)
  {
    var x := Placed(p.pos, p.op.Substitute(Renaming(t, w.cur)));
    RenamedOps(t, p.op, w.cur);
    PushClear(t, w, x, at);
  }

  lemma RenamedOps(t: Task, op: Op, cur: Reg)
    requires !op.Mentions(cur) && t.r !in op.Clobbers()
    ensures var x := op.Substitute(Renaming(t, cur)); (x.Writes(cur) ==> op.Writes(t.r)) && (t.r in op.Ins() ==> cur in x.Ins())
  {
    var f, x := Renaming(t, cur), op.Substitute(Renaming(t, cur));
    if op.Plain? {
      if cur in x.outs {
        var i :| 0 <= i < |x.outs| && x.outs[i] == cur;
        assert f(op.outs[i]) == cur && op.outs[i] in op.outs;
      }
      if t.r in op.ins {
        var i :| 0 <= i < |op.ins| && op.ins[i] == t.r;
        assert x.ins[i] == cur;
      }
    }
  }

  lemma ReloadClear(t: Task, v: Walk, p: Placed, before: real, at: real)
    requires Begun(v) && before < p.pos && v.tail != [] && v.tail[0].pos >= p.pos && v.have
    ensures var z := PushReload(t, v, Between(before, p.pos)); Begun(z) && (Clear(v, at) ==> Clear(z, at)) && Clear(z, Between(before, p.pos))
  {
    var x := Placed(Between(before, p.pos), Reload(v.cur, t.home));
    PushClear(t, v, x, at);
  }

  /** Every reload that has been passed is clear. */
  ghost predicate CutsClear(c: code, k: nat, r: Reg, overlaps: int -> bool, w: Walk) {
    Begun(w) && forall i :: k <= i && Cut(c, i, r, overlaps) ==> Clear(w, CutAt(c, i))
  }

  lemma CutsOccurrence(max: int, og: Reg -> Reg, t: Task, c: code, k: nat, next: nat, w: Walk, overlaps: int -> bool)
    requires k < |c| && CutsClear(c, k + 1, t.r, overlaps, w) && Walking(max, og, t, c, k + 1, next, w) && c[k].op.Mentions(t.r)
    requires NoDead(c, t.r, t.out) && Laid(c) && Given(max, og, t, c[k].op) && t.unused <= next
    requires c[k].op.Writes(t.r) ==> w.tail != []
    ensures CutsClear(c, k, t.r, overlaps, AtOccurrence(t, w, c[k], PosBefore(c, k), Reloads(c, k, t.r, overlaps)))
  {
    GivenFacts(max, og, t, c[k].op);
    GivenNames(max, og, t, c, k, next, w);
    WalkingTail(max, og, t, c, k, next, w);
    var reload := Reloads(c, k, t.r, overlaps);
    var v := AtOccurrence(t, w, c[k], PosBefore(c, k), reload);
    hide Walking, Given, NoDead, Laid, AtOccurrence, Begun, Clear, Reloads, Link;
    OccurrenceClear(t, w, c[k], PosBefore(c, k), reload, 0.0);
    forall i | k <= i && Cut(c, i, t.r, overlaps) ensures Clear(v, CutAt(c, i)) {
      OccurrenceClear(t, w, c[k], PosBefore(c, k), reload, CutAt(c, i));
    }
  }

  /** Fresh names are not in the code. */
  lemma GivenNames(max: int, og: Reg -> Reg, t: Task, c: code, k: nat, next: nat, w: Walk)
    requires k < |c| && Walking(max, og, t, c, k + 1, next, w) && Given(max, og, t, c[k].op) && t.unused <= next
    ensures forall n: Reg :: c[k].op.Mentions(n) ==> n.id < w.next
    ensures w.have ==> !c[k].op.Mentions(w.cur) && w.tail != []
  {
    hide Rewrites, Others, Shape;
  }

  lemma CutsOther(max: int, og: Reg -> Reg, t: Task, c: code, k: nat, next: nat, w: Walk, overlaps: int -> bool)
    requires k < |c| && CutsClear(c, k + 1, t.r, overlaps, w) && Walking(max, og, t, c, k + 1, next, w) && !c[k].op.Mentions(t.r)
    requires NoDead(c, t.r, t.out) && Laid(c) && Given(max, og, t, c[k].op)
    ensures CutsClear(c, k, t.r, overlaps, AtOther(w, c[k]))
  {
    GivenFacts(max, og, t, c[k].op);
    WalkingTail(max, og, t, c, k, next, w);
    hide Walking, Given, NoDead, Laid, Reloads, Link, AtOther, Begun, Clear;
    var v := AtOther(w, c[k]);
    OtherClear(w, c[k], 0.0);
    forall i | k <= i && Cut(c, i, t.r, overlaps) ensures Clear(v, CutAt(c, i)) {
      assert i != k;
      OtherClear(w, c[k], CutAt(c, i));
    }
  }

  lemma WalkingTail(max: int, og: Reg -> Reg, t: Task, c: code, k: nat, next: nat, w: Walk)
    requires k < |c| && Walking(max, og, t, c, k + 1, next, w) && NoDead(c, t.r, t.out) && Laid(c) && t.r !in c[k].op.Clobbers()
    ensures c[k..] == [c[k]] + c[k + 1..] && Link(max, og, t, LastPos(c), c[k].pos, c[k + 1..], w)
    ensures PosBefore(c, k) < c[k].pos && (w.tail != [] ==> c[k].pos < w.tail[0].pos)
    ensures c[k].op.Writes(t.r) ==> (w.want || w.have) && w.tail != []
    ensures if c[k + 1..] == [] then w.tail == [] && c[k].op.Quiet() else w.tail != []
  {
    LaidAt(c, k);
    NoDeadAt(c, k, t.r, t.out);
    TailSlice(c, k);
    hide *;
    WalkingLink(max, og, t, c, k, next, w);
    LinkFacts(max, og, t, LastPos(c), c[k].pos, c[k + 1..], w);
    WritesOut(c[k].op, t.r);
  }

  lemma WalkingLink(max: int, og: Reg -> Reg, t: Task, c: code, k: nat, next: nat, w: Walk)
    requires k < |c| && Walking(max, og, t, c, k + 1, next, w)
    ensures Link(max, og, t, LastPos(c), c[k].pos, c[k + 1..], w) && (k + 1 == |c| ==> w.tail == [])
  {
    hide Link, Occurs;
  }

  lemma TailSlice(c: code, k: nat)
    requires k < |c|
    ensures c[k..] == [c[k]] + c[k + 1..] && (c[k + 1..] == [] <==> k + 1 == |c|)
  {
  }

  lemma WritesOut(op: Op, r: Reg)
    requires r !in op.Clobbers()
    ensures op.Writes(r) <==> r in op.Outs()
    ensures op.Writes(r) ==> !op.Quiet()
  {
  }

  lemma LaidAt(c: code, k: nat)
    requires Laid(c) && k < |c|
    ensures PosBefore(c, k) < c[k].pos && (k + 1 == |c| ==> c[k].op.Quiet())
  {
    IncreasingAt(c, 0.0, k);
    if k > 0 { IncreasingAt(c, 0.0, k - 1); }
  }

  lemma WalkOccurrence(max: int, og: Reg -> Reg, t: Task, c: code, k: nat, next: nat, w: Walk, reload: bool)
    requires k < |c| && Walking(max, og, t, c, k + 1, next, w) && NoDead(c, t.r, t.out) && Laid(c) && Stems(og, t)
    requires Given(max, og, t, c[k].op) && c[k].op.Mentions(t.r) && (!Occurs(c[..k], t.r) ==> reload)
    ensures c[k].op.Writes(t.r) ==> w.tail != []
    ensures Walking(max, og, t, c, k, next, AtOccurrence(t, w, c[k], PosBefore(c, k), reload))
  {
    WalkingTail(max, og, t, c, k, next, w);
    NextGrows(t, w, c[k], PosBefore(c, k), reload);
    assert next <= w.next;
    hide Link, Wanted, NoDead, Increasing, Given, Stems, AtOccurrence, Occurs;
    LinkOccurrence(max, og, t, LastPos(c), PosBefore(c, k), c[k + 1..], w, c[k], reload);
  }

  lemma WalkOther(max: int, og: Reg -> Reg, t: Task, c: code, k: nat, next: nat, w: Walk)
    requires k < |c| && Walking(max, og, t, c, k + 1, next, w) && NoDead(c, t.r, t.out) && Laid(c) && Stems(og, t)
    requires Given(max, og, t, c[k].op) && !c[k].op.Mentions(t.r)
    ensures Walking(max, og, t, c, k, next, AtOther(w, c[k]))
  {
    WalkingTail(max, og, t, c, k, next, w);
    if w.have { OccursShorter(c, k, t.r); }
    hide Link, Wanted, NoDead, Increasing, Given, Stems, Occurs;
    LinkOther(max, og, t, LastPos(c), c[k].pos, PosBefore(c, k), c[k + 1..], w, c[k]);
  }

  lemma WalkDone(max: int, og: Reg -> Reg, t: Task, c: code, next: nat, w: Walk)
    requires c != [] && Walking(max, og, t, c, 0, next, w)
    ensures Link(max, og, t, LastPos(c), 0.0, c, w) && !w.have && next <= w.next
  {
    assert c[0..] == c && !Occurs(c[..0], t.r);
  }

  /** Walks a block backwards and rewrites every occurrence of the register. overlaps(k) tells
      whether the live range that caused the spill lies between occurrence k and the one before
      it; an occurrence without one before it is always reloaded.
   */
  method SpillInBlock(max: int, ghost og: Reg -> Reg, t: Task, c: code, overlaps: int -> bool, next: nat) returns (w: Walk)
    requires Laid(c) && Stems(og, t) && t.unused <= next && NoDead(c, t.r, t.out)
    requires forall k :: 0 <= k < |c| ==> Given(max, og, t, c[k].op)
    ensures Link(max, og, t, LastPos(c), 0.0, c, w) && !w.have && next <= w.next
    ensures CutsClear(c, 0, t.r, overlaps, w)
  {
    w := Walk([], t.out, false, t.r, 0.0, [], next);
    LinkStart(max, og, t, LastPos(c), PosBefore(c, |c|), next);
    assert Walking(max, og, t, c, |c|, next, w);
    var k := |c|;
    hide Walking, Link, Stems, Given, Laid, CutsClear;
    assert CutsClear(c, |c|, t.r, overlaps, w) by { CutsNone(c, t, overlaps, next); }
    while k > 0
      invariant 0 <= k <= |c| && Walking(max, og, t, c, k, next, w) && CutsClear(c, k, t.r, overlaps, w)
    {
      k := k - 1;
      GivenFacts(max, og, t, c[k].op);
      if c[k].op.Mentions(t.r) {
        var reload := Reloads(c, k, t.r, overlaps);
        WalkOccurrence(max, og, t, c, k, next, w, reload);
        CutsOccurrence(max, og, t, c, k, next, w, overlaps);
        w := AtOccurrence(t, w, c[k], PosBefore(c, k), reload);
      } else {
        WalkOther(max, og, t, c, k, next, w);
        CutsOther(max, og, t, c, k, next, w, overlaps);
        w := AtOther(w, c[k]);
      }
    }
    WalkDone(max, og, t, c, next, w);
  }

  lemma CutsNone(c: code, t: Task, overlaps: int -> bool, next: nat)
    ensures CutsClear(c, |c|, t.r, overlaps, Walk([], t.out, false, t.r, 0.0, [], next))
  {
  }

  lemma GivenFacts(max: int, og: Reg -> Reg, t: Task, op: Op)
    requires Given(max, og, t, op)
    ensures t.r !in op.Clobbers()
  {
  }
}
