/** The allocation loop: registers are assigned, placed in groups or spilled until all have colours. */
module Allocation {
  import opened Liveness
  import opened Operations
  import opened LiveRanges
  import opened ColoredRun
  import opened Coloring
  import opened Spilling
  import opened SpilledFunction
  import opened Finalization
  import opened Turns

  ghost predicate Handable(st: Setting, space: int, r: Reg) { Physical(st.max, r) && r.space == space && Ordinary(st.x, r) }

  /** A group is no longer than the list of registers, and none of its members is handed in or out. */
  ghost predicate GroupOk(st: Setting, group: seq<Reg>) {
    && group != [] && NoRepeats(group) && |group| <= |st.regs(group[0].space)|
    && forall i :: 0 <= i < |group| ==> MemberOk(st, group[0].space, group[i])
  }

  ghost predicate MemberOk(st: Setting, space: int, r: Reg) {
    r.space == space && !Physical(st.max, r) && r.id < st.first && r !in st.inputs + st.outputs
  }

  ghost predicate SettingOk(st: Setting) {
    && (forall space :: NoRepeats(st.regs(space)) && forall i :: 0 <= i < |st.regs(space)| ==> Handable(st, space, st.regs(space)[i]))
    && (forall r, c :: r in st.choices && c in st.choices[r] ==> Physical(st.max, c) && c.space == r.space)
    && (forall r :: r in st.x.always + st.x.never ==> Physical(st.max, r))
    && (forall r: Reg :: r in st.inputs ==> r.id < st.first)
    && forall gi :: 0 <= gi < |st.groups| ==> GroupOk(st, st.groups[gi])
  }

  function HomeOf(homes: map<Reg, Reg>, r: Reg): Reg { if r in homes then homes[r] else r }

  /** The function is a spilled form of the original, and its pieces cover what it needs. */
  ghost predicate CodeKept(st: Setting, orig: seq<Body>, p: Progress, v: View, pieces: set<Piece>) {
    && Spillable(st.max, st.x, st.outputs, p.f, v) && Computes(v.og, p.f.bodies, orig) && CoversNeeds(st.x, p.f.bodies, v.outs, pieces)
    && p.outs == v.outs && p.unused == v.unused && v.first == st.first && p.stored == v.stored
    && StoresOf(p.f.prologue, st.inputs) && forall r :: r in v.ins[0] && Ordinary(st.x, r) ==> r in st.inputs
  }

  ghost predicate PieceKept(st: Setting, p: Progress, v: View, q: Piece) {
    Ordinary(st.x, q.reg) && q.reg.id < p.unused && HomeOf(p.homes, q.reg) == v.og(q.reg) && q.range.begin <= q.range.end
  }

  ghost predicate ColorKept(st: Setting, p: Progress, r: Reg, c: Reg) {
    r.id < p.unused && Ordinary(st.x, r) && Ordinary(st.x, c) && (r in st.choices ==> c in st.choices[r])
  }

  ghost predicate ColorsKept(st: Setting, p: Progress, subs: map<Reg, Reg>) { forall r :: r in subs ==> ColorKept(st, p, r, subs[r]) }

  /** Registers with pieces have colours or are still to be looked at. */
  ghost predicate Pending(st: Setting, work: seq<Reg>, pieces: set<Piece>, subs: map<Reg, Reg>) {
    forall q :: q in pieces ==> IsColored(st.max, subs, q.reg) || q.reg in work
  }

  ghost predicate WorkOk(st: Setting, unused: nat, work: seq<Reg>) { forall i :: 0 <= i < |work| ==> !Physical(st.max, work[i]) && work[i].id < unused }

  /** Members of placed groups have colours, or no pieces any more. */
  ghost predicate GroupsKept(st: Setting, placed: set<int>, pieces: set<Piece>, subs: map<Reg, Reg>) {
    forall gi :: gi in placed ==> 0 <= gi < |st.groups| && GroupKept(st, st.groups[gi], pieces, subs)
  }

  ghost predicate GroupKept(st: Setting, group: seq<Reg>, pieces: set<Piece>, subs: map<Reg, Reg>) {
    forall i :: 0 <= i < |group| ==> IsColored(st.max, subs, group[i]) || !HasPiece(pieces, group[i])
  }

  ghost predicate Kept(st: Setting, orig: seq<Body>, p: Progress, v: View, pieces: set<Piece>, subs: map<Reg, Reg>) {
    && CodeKept(st, orig, p, v, pieces) && (forall q :: q in pieces ==> PieceKept(st, p, v, q)) && ColorsKept(st, p, subs)
    && Pending(st, p.work, pieces, subs) && WorkOk(st, p.unused, p.work) && GroupsKept(st, p.placed, pieces, subs)
  }

  lemma WorkNext(st: Setting, unused: nat, work: seq<Reg>, pieces: set<Piece>, subs: map<Reg, Reg>)
    requires work != [] && WorkOk(st, unused, work) && Pending(st, work, pieces, subs)
    requires IsColored(st.max, subs, work[0]) || !HasPiece(pieces, work[0])
    ensures WorkOk(st, unused, work[1..]) && Pending(st, work[1..], pieces, subs)
  {
  }

  /** A register that has a colour, or no pieces, needs nothing more. */
  lemma StepSkipped(st: Setting, orig: seq<Body>, p: Progress, v: View, pieces: set<Piece>, subs: map<Reg, Reg>)
    requires Kept(st, orig, p, v, pieces, subs) && p.work != []
    requires IsColored(st.max, subs, p.work[0]) || !HasPiece(pieces, p.work[0])
    ensures Kept(st, orig, Next(p), v, pieces, subs)
  {
    hide CodeKept, PieceKept, ColorsKept, GroupsKept;
    WorkNext(st, p.unused, p.work, pieces, subs);
    SameCode(st, orig, p, Next(p), v, pieces, subs);
  }

  lemma SameCode(st: Setting, orig: seq<Body>, p: Progress, p': Progress, v: View, pieces: set<Piece>, subs: map<Reg, Reg>)
    requires p' == p.(work := p'.work, placed := p'.placed)
    ensures CodeKept(st, orig, p, v, pieces) ==> CodeKept(st, orig, p', v, pieces)
    ensures (forall q :: q in pieces ==> PieceKept(st, p, v, q)) ==> forall q :: q in pieces ==> PieceKept(st, p', v, q)
    ensures ColorsKept(st, p, subs) ==> ColorsKept(st, p', subs)
  {
    if forall q :: q in pieces ==> PieceKept(st, p, v, q) {
      forall q | q in pieces ensures PieceKept(st, p', v, q) { assert PieceKept(st, p, v, q); }
    }
    if ColorsKept(st, p, subs) {
      forall r | r in subs ensures ColorKept(st, p', r, subs[r]) { assert ColorKept(st, p, r, subs[r]); }
    }
  }

  /** More colours: nothing that had one loses it. */
  lemma StepColored(st: Setting, orig: seq<Body>, p: Progress, placed: set<int>, v: View, pieces: set<Piece>, before: map<Reg, Reg>, subs: map<Reg, Reg>)
    requires Kept(st, orig, p, v, pieces, before) && p.work != [] && IsColored(st.max, subs, p.work[0])
    requires forall r :: r in before ==> r in subs && subs[r] == before[r]
    requires forall r :: r in subs && r !in before ==> ColorKept(st, p, r, subs[r])
    requires forall gi :: gi in placed - p.placed ==> 0 <= gi < |st.groups| && GroupKept(st, st.groups[gi], pieces, subs)
    ensures Kept(st, orig, Next(p).(placed := placed), v, pieces, subs)
  {
    var p' := Next(p).(placed := placed);
    forall q | q in pieces && !IsColored(st.max, subs, q.reg) ensures q.reg in p.work {
      assert !IsColored(st.max, before, q.reg);
    }
    WorkNext(st, p.unused, p.work, pieces, subs);
    forall r | r in subs ensures ColorKept(st, p, r, subs[r]) {
      if r in before { assert ColorKept(st, p, r, before[r]); }
    }
    forall gi | gi in placed ensures 0 <= gi < |st.groups| && GroupKept(st, st.groups[gi], pieces, subs) {
      if gi in p.placed { assert GroupKept(st, st.groups[gi], pieces, before); } else { assert gi in placed - p.placed; }
    }
    hide CodeKept, PieceKept, ColorKept, GroupKept, WorkOk, Pending;
    SameCode(st, orig, p, p', v, pieces, subs);
  }

  // ----- spilling a register

  function MoreHomes(homes: map<Reg, Reg>, more: set<Piece>, unused: nat, home: Reg): map<Reg, Reg> {
    homes + map q | q in RegsOf(more) && q.id >= unused :: home
  }

  lemma HomeAfter(homes: map<Reg, Reg>, more: set<Piece>, unused: nat, home: Reg, q: Reg)
    ensures HomeOf(MoreHomes(homes, more, unused, home), q) == if q in RegsOf(more) && q.id >= unused then home else HomeOf(homes, q)
  {
  }

  lemma HomesKept(st: Setting, p: Progress, v: View, n: View, pieces: set<Piece>, more: set<Piece>, r: Reg, home: Reg, boundary: bool, p': Progress)
    requires forall q :: q in pieces ==> PieceKept(st, p, v, q)
    requires forall q :: q in more ==> NewPiece(q, r, boundary, p.unused, p'.unused)
    requires p'.homes == MoreHomes(p.homes, more, p.unused, home) && p.unused <= p'.unused && n.og == Stemming(v.og, p.unused, home)
    requires r.id < p.unused && home == v.og(r) == HomeOf(p.homes, r) && Ordinary(st.x, r)
    requires (forall q :: q in st.x.always + st.x.never ==> Physical(st.max, q)) && st.max < p.unused
    ensures forall q :: q in Without(pieces, r) + more ==> PieceKept(st, p', n, q)
  {
    forall q | q in Without(pieces, r) + more ensures PieceKept(st, p', n, q) {
      HomeAfter(p.homes, more, p.unused, home, q.reg);
      if q in more {
        assert NewPiece(q, r, boundary, p.unused, p'.unused);
        assert q.reg in RegsOf(more);
        assert !Ordinary(st.x, q.reg) ==> q.reg in st.x.always + st.x.never;
      } else {
        assert PieceKept(st, p, v, q);
      }
    }
  }

  lemma SpillPending(st: Setting, work: seq<Reg>, pieces: set<Piece>, more: set<Piece>, subs: map<Reg, Reg>, r: Reg, added: seq<Reg>)
    requires work != [] && Pending(st, work, pieces, subs) && !Physical(st.max, r)
    requires forall q :: q in RegsOf(more) ==> q in added
    ensures Pending(st, work[1..] + added + [work[0]], Without(pieces, r) + more, subs - {r})
  {
    var work' := work[1..] + added + [work[0]];
    forall q | q in Without(pieces, r) + more && !IsColored(st.max, subs - {r}, q.reg) ensures q.reg in work' {
      if q in more {
        assert q.reg in RegsOf(more);
      } else {
        assert q.reg in work;
        assert q.reg == work[0] || q.reg in work[1..];
      }
    }
  }

  lemma SpillGroups(st: Setting, placed: set<int>, pieces: set<Piece>, more: set<Piece>, subs: map<Reg, Reg>, r: Reg, unused: nat, next: nat)
    requires GroupsKept(st, placed, pieces, subs) && st.first <= unused && (forall gi :: 0 <= gi < |st.groups| ==> GroupOk(st, st.groups[gi]))
    requires forall q :: q in more ==> NewPiece(q, r, r in st.inputs || r in st.outputs, unused, next)
    ensures GroupsKept(st, placed, Without(pieces, r) + more, subs - {r})
  {
    var after := Without(pieces, r) + more;
    forall gi | gi in placed ensures 0 <= gi < |st.groups| && GroupKept(st, st.groups[gi], after, subs - {r}) {
      var group := st.groups[gi];
      assert GroupKept(st, group, pieces, subs) && GroupOk(st, group);
      forall i | 0 <= i < |group| ensures IsColored(st.max, subs - {r}, group[i]) || !HasPiece(after, group[i]) {
        assert MemberOk(st, group[0].space, group[i]);
        forall q | q in more ensures q.reg != group[i] {
          assert NewPiece(q, r, r in st.inputs || r in st.outputs, unused, next);
        }
      }
    }
  }

  lemma SpillCode(st: Setting, orig: seq<Body>, p: Progress, v: View, pieces: set<Piece>, more: set<Piece>, r: Reg, p': Progress, n: View)
    requires CodeKept(st, orig, p, v, pieces)
    requires Spillable(st.max, st.x, st.outputs, p'.f, n) && p'.outs == n.outs && p'.unused == n.unused && n.first == v.first && p'.stored == n.stored
    requires Computes(v.og, p.f.bodies, orig) ==> Computes(n.og, p'.f.bodies, orig)
    requires CoversNeeds(st.x, p.f.bodies, v.outs, pieces) ==> CoversNeeds(st.x, p'.f.bodies, n.outs, Without(pieces, r) + more)
    requires |n.ins| == |v.ins| > 0 && n.ins[0] == v.ins[0] - {r} && p'.f.prologue == StoredFirst(p.f.prologue, r, r in st.inputs)
    ensures CodeKept(st, orig, p', n, Without(pieces, r) + more)
  {
    hide Spillable, Computes, CoversNeeds;
    var q := p'.f.prologue;
    forall k | 0 <= k < |q| ensures q[k].op.Store? && q[k].op.reg == q[k].op.slot && q[k].op.reg in st.inputs {
      if r in st.inputs && k > 0 { assert q[k] == p.f.prologue[k - 1]; }
    }
  }

  lemma SpillColors(st: Setting, p: Progress, p': Progress, subs: map<Reg, Reg>, r: Reg)
    requires ColorsKept(st, p, subs) && p.unused <= p'.unused
    ensures ColorsKept(st, p', subs - {r})
  {
    forall q | q in subs - {r} ensures ColorKept(st, p', q, (subs - {r})[q]) {
      assert ColorKept(st, p, q, subs[q]);
    }
  }

  lemma SpillWork(st: Setting, work: seq<Reg>, unused: nat, next: nat, more: set<Piece>, added: seq<Reg>, r: Reg, boundary: bool)
    requires work != [] && WorkOk(st, unused, work) && unused <= next && st.max < unused && !Physical(st.max, r) && r.id < unused
    requires (forall q :: q in added ==> q in RegsOf(more)) && forall q :: q in more ==> NewPiece(q, r, boundary, unused, next)
    ensures WorkOk(st, next, work[1..] + added + [work[0]])
  {
    var work' := work[1..] + added + [work[0]];
    forall i | 0 <= i < |work'| ensures !Physical(st.max, work'[i]) && work'[i].id < next {
      if |work| - 1 <= i < |work| - 1 + |added| {
        assert work'[i] in added;
        var q :| q in more && q.reg == work'[i];
        assert NewPiece(q, r, boundary, unused, next);
      } else if i < |work| - 1 {
        assert work'[i] == work[i + 1];
      }
    }
  }

  /** The elements of a set in some order. */
  method InSomeOrder<T(==)>(s: set<T>) returns (q: seq<T>)
    ensures forall e :: e in q <==> e in s
  {
    q := [];
    var todo := s;
    while todo != {}
      invariant todo <= s && forall e :: e in q <==> e in s - todo
      decreases |todo|
    {
      var e :| e in todo;
      todo := todo - {e};
      q := q + [e];
    }
  }

  lemma SubsBelow(st: Setting, p: Progress, subs: map<Reg, Reg>, more: set<Piece>, r: Reg, boundary: bool, next: nat)
    requires ColorsKept(st, p, subs) && st.max < p.unused && !Physical(st.max, r)
    requires forall q :: q in more ==> NewPiece(q, r, boundary, p.unused, next)
    ensures forall q :: q in more ==> !Physical(st.max, q.reg) && (q.reg == r || q.reg !in subs)
  {
    forall q | q in more ensures !Physical(st.max, q.reg) && (q.reg == r || q.reg !in subs) {
      assert NewPiece(q, r, boundary, p.unused, next);
      if q.reg in subs { assert ColorKept(st, p, q.reg, subs[q.reg]); }
    }
  }

  lemma SpillKept(st: Setting, orig: seq<Body>, p: Progress, v: View, pieces: set<Piece>, subs: map<Reg, Reg>, r: Reg, more: set<Piece>,
                  added: seq<Reg>, p': Progress, n: View)
    requires SettingOk(st) && Kept(st, orig, p, v, pieces, subs) && p.work != [] && HasPiece(pieces, r) && !Physical(st.max, r)
    requires Spillable(st.max, st.x, st.outputs, p'.f, n) && p'.outs == n.outs && p'.unused == n.unused && n.first == v.first && p'.stored == n.stored
    requires forall o :: Computes(v.og, p.f.bodies, o) ==> Computes(n.og, p'.f.bodies, o)
    requires forall ps :: CoversNeeds(st.x, p.f.bodies, v.outs, ps) ==> CoversNeeds(st.x, p'.f.bodies, n.outs, Without(ps, r) + more)
    requires |n.ins| == |v.ins| && n.ins[0] == v.ins[0] - {r} && p'.f.prologue == StoredFirst(p.f.prologue, r, r in st.inputs)
    requires forall q :: q in more ==> NewPiece(q, r, r in st.inputs || r in st.outputs, p.unused, p'.unused)
    requires n.og == Stemming(v.og, v.unused, HomeOf(p.homes, r)) && p.unused <= p'.unused && p'.placed == p.placed
    requires p'.homes == MoreHomes(p.homes, more, p.unused, HomeOf(p.homes, r))
    requires (forall q :: q in added <==> q in RegsOf(more)) && p'.work == p.work[1..] + added + [p.work[0]]
    ensures Kept(st, orig, p', n, Without(pieces, r) + more, subs - {r})
    ensures forall q :: q in more ==> !Physical(st.max, q.reg) && (q.reg == r || q.reg !in subs)
  {
    var boundary := r in st.inputs || r in st.outputs;
    PieceFacts(st, orig, p, v, pieces, subs, r);
    hide Spillable, Computes, CoversNeeds, CodeKept, PieceKept, ColorsKept, Pending, WorkOk, GroupsKept, NewPiece, GroupOk, HasPiece, RegsOf, MoreHomes, Stemming, Without;
    SpillCode(st, orig, p, v, pieces, more, r, p', n);
    HomesKept(st, p, v, n, pieces, more, r, HomeOf(p.homes, r), boundary, p');
    SpillColors(st, p, p', subs, r);
    SpillPending(st, p.work, pieces, more, subs, r, added);
    SpillWork(st, p.work, p.unused, p'.unused, more, added, r, boundary);
    SpillGroups(st, p.placed, pieces, more, subs, r, p.unused, p'.unused);
    SubsBelow(st, p, subs, more, r, boundary, p'.unused);
  }

  lemma GraphKnown(st: Setting, g: Allocator, p: Progress, options: set<Reg>)
    requires g.Valid() && g.max == st.max && p.work != []
    requires options == set q | q in Candidates(st.max, g.constraints, Stuck(st, p.work[0])) && q in g.constraints && q !in p.stored && !Physical(st.max, q)
    ensures options == SpillOptions(st, Moment(p, g.pieces, g.subs))
  {
    GraphExact(g.pieces, g.constraints);
    hide Candidates, Stuck, Exact, Proper, SubsOk;
  }

  lemma NothingToSpill(st: Setting, m: Moment)
    requires m.p.work != [] && HeadStuck(st, m) && SpillOptions(st, m) == {}
    ensures Refuses(st, m, NoCandidate)
  {
  }

  lemma WrittenInVain(st: Setting, m: Moment, q: Reg)
    requires m.p.work != [] && HeadStuck(st, m) && q in SpillOptions(st, m) && |m.p.outs| == |m.p.f.bodies| && Unspillable(m.p.f.bodies, m.p.outs, q)
    ensures Refuses(st, m, DeadDefinition)
  {
  }

  lemma SpillTurns(st: Setting, a: Moment, b: Moment, q: Reg, more: set<Piece>, added: seq<Reg>)
    requires a.p.work != [] && HeadStuck(st, a) && q in SpillOptions(st, a) && |a.p.outs| == |a.p.f.bodies| && !Unspillable(a.p.f.bodies, a.p.outs, q)
    requires b.subs == a.subs - {q} && b.pieces == Without(a.pieces, q) + more && b.p.work == a.p.work[1..] + added + [a.p.work[0]]
    requires forall r :: r in added <==> r in RegsOf(more)
    requires forall n :: n in more ==> NewPiece(n, q, q in st.inputs || q in st.outputs, a.p.unused, b.p.unused)
    requires AllApart(a.p.f.bodies, q, CausedAt(a.pieces, a.p.work[0], a.p.f.bodies, q), more)
    ensures Turn(st, a, b)
  {
    hide HeadStuck, AllApart, CausedAt, SpillOptions, Unspillable, RegsOf, Without, NewPiece, Skips, Colours, Places;
    assert SpillsFor(st, a, b, q);
  }

  lemma SpilledPiece(pieces: set<Piece>, r: Reg)
    requires r in RegsOf(pieces)
    ensures HasPiece(pieces, r)
  {
    HasRegs(pieces, r);
  }

  lemma OptionParts(st: Setting, m: Moment, q: Reg)
    requires m.p.work != [] && q in SpillOptions(st, m)
    ensures HasPiece(m.pieces, q) && q !in m.p.stored && !Physical(st.max, q)
  {
    HasRegs(m.pieces, q);
    hide Candidates, Stuck;
  }

  /** Spills one of the candidates that has ranges, whichever is cheapest; one that has already been
      spilled at the function's boundaries is not spilled again. Gives up only if there is no candidate,
      or where the source's assertion fails.
   */
  method SpillStep(st: Setting, ghost orig: seq<Body>, g: Allocator, p: Progress, ghost v: View)
    returns (why: Ending, p': Progress, ghost n: View)
    requires SettingOk(st) && g.Valid() && g.max == st.max && Kept(st, orig, p, v, g.pieces, g.subs) && p.work != []
    requires HeadStuck(st, Moment(p, g.pieces, g.subs))
    modifies g
    ensures why == Going ==> g.Valid() && Kept(st, orig, p', n, g.pieces, g.subs)
    ensures why == Going ==> Turn(st, Moment(p, old(g.pieces), old(g.subs)), Moment(p', g.pieces, g.subs))
    ensures why != Going ==> Refuses(st, Moment(p, old(g.pieces), old(g.subs)), why)
  {
    hide HeadStuck, SpillOptions, Turn, Refuses, Stuck, Candidates, Kept, SettingOk;
    var options := set q | q in Candidates(st.max, g.constraints, Stuck(st, p.work[0])) && q in g.constraints && q !in p.stored && !Physical(st.max, q);
    ghost var was := Moment(p, g.pieces, g.subs);
    GraphKnown(st, g, p, options);
    p', n := p, v;
    if options == {} {
      why := NoCandidate;
      NothingToSpill(st, was);
      return;
    }
    var r: Reg :| r in options;
    OptionParts(st, was, r);
    PieceFacts(st, orig, p, v, g.pieces, g.subs, r);
    assert |p.outs| == |p.f.bodies| by { SpillableLengths(st.max, st.x, st.outputs, p.f, v); }
    if Unspillable(p.f.bodies, p.outs, r) {
      why := DeadDefinition;
      WrittenInVain(st, was, r);
      return;
    }
    var ps, cause, bodies := g.pieces, p.work[0], p.f.bodies;
    var home := HomeOf(p.homes, r);
    var f, more, next, outs, n' := SpillRegister(st.max, st.x, p.f, v, r, home, p.outs, r in st.inputs, st.outputs,
      CausedAt(ps, cause, bodies, r), p.unused);
    var added := InSomeOrder(RegsOf(more));
    n := n';
    p' := Progress(f, outs, MoreHomes(p.homes, more, p.unused, home), next,
            if r in st.inputs || r in st.outputs then p.stored + {r} else p.stored, p.work[1..] + added + [p.work[0]], p.placed);
    ghost var pieces, subs := g.pieces, g.subs;
    SpillKept(st, orig, p, v, pieces, subs, r, more, added, p', n);
    g.Spill(r, more);
    SpillTurns(st, was, Moment(p', g.pieces, g.subs), r, more, added);
    why := Going;
  }

  lemma SpillableLengths(max: int, x: Special, outputs: set<Reg>, f: Fn, v: View)
    requires Spillable(max, x, outputs, f, v)
    ensures |v.outs| == |f.bodies|
  {
  }

  lemma PieceFacts(st: Setting, orig: seq<Body>, p: Progress, v: View, pieces: set<Piece>, subs: map<Reg, Reg>, r: Reg)
    requires SettingOk(st) && Kept(st, orig, p, v, pieces, subs) && HasPiece(pieces, r)
    ensures Spillable(st.max, st.x, st.outputs, p.f, v) && p.outs == v.outs && p.unused == v.unused && HomeOf(p.homes, r) == v.og(r)
    ensures Ordinary(st.x, r) && r.id < p.unused && p.stored == v.stored && v.first == st.first && st.max < v.first <= v.unused
    ensures |v.ins| > 0 && (r in v.ins[0] ==> r in st.inputs) && (r in st.inputs ==> r.id < st.first)
  {
    var q :| q in pieces && q.reg == r;
    assert PieceKept(st, p, v, q);
  }

  // ----- the loop

  lemma OptionsOk(st: Setting, r: Reg)
    requires SettingOk(st)
    ensures forall c :: c in Options(st, r) ==> Physical(st.max, c) && c.space == r.space && Ordinary(st.x, c)
    ensures forall c :: c in Options(st, r) && r in st.choices ==> c in st.choices[r]
  {
    forall c | c in Options(st, r) ensures Physical(st.max, c) && c.space == r.space && Ordinary(st.x, c) {
      if r !in st.choices {
        var i :| 0 <= i < |st.regs(r.space)| && st.regs(r.space)[i] == c;
        assert Handable(st, r.space, st.regs(r.space)[i]);
      }
    }
  }

  lemma WorkHead(st: Setting, orig: seq<Body>, p: Progress, v: View, pieces: set<Piece>, subs: map<Reg, Reg>)
    requires SettingOk(st) && Kept(st, orig, p, v, pieces, subs) && p.work != []
    ensures var r := p.work[0]; !Physical(st.max, r) && r.id < p.unused && Ordinary(st.x, r) && st.first <= p.unused
  {
    var r := p.work[0];
    assert !Ordinary(st.x, r) ==> r in st.x.always + st.x.never;
  }

  /** Tries to give the first register of the list a colour by itself. */
  method AssignStep(st: Setting, ghost orig: seq<Body>, g: Allocator, p: Progress, ghost v: View) returns (done: bool, p': Progress)
    requires SettingOk(st) && g.Valid() && g.max == st.max && Kept(st, orig, p, v, g.pieces, g.subs) && p.work != []
    requires p.work[0] !in g.subs && GroupOf(st.groups, p.work[0], |st.groups|) < 0
    modifies g`subs
    ensures g.Valid() && Kept(st, orig, p', v, g.pieces, g.subs)
    ensures p' == if done then Next(p) else p
    ensures done ==> Turn(st, Moment(p, g.pieces, old(g.subs)), Moment(p', g.pieces, g.subs))
    ensures !done ==> g.subs == old(g.subs) && HeadStuck(st, Moment(p, g.pieces, g.subs))
  {
    hide *;
    var r := p.work[0];
    WorkHead(st, orig, p, v, g.pieces, g.subs);
    OptionsOk(st, r);
    p' := p;
    if r !in g.constraints {
      done := true;
      p' := Next(p);
      NoPieces(g, r);
      StepSkipped(st, orig, p, v, g.pieces, g.subs);
      SkipTurns(st, p, g.pieces, g.subs);
      return;
    }
    ghost var before := g.subs;
    GraphAt(g, r);
    done := g.Assign(r, Options(st, r));
    if done {
      p' := Next(p);
      StepAssigned(st, orig, p, v, g.pieces, before, g.subs);
      ColourTurns(st, p, g.pieces, before, g.subs, g.subs[r]);
    } else {
      AssignStuck(st, p, g.pieces, g.subs);
    }
  }

  lemma GraphAt(g: Allocator, r: Reg)
    requires g.Valid() && r in g.constraints
    ensures g.constraints[r] == Neighbours(g.pieces, r) && HasPiece(g.pieces, r)
  {
    GraphExact(g.pieces, g.constraints);
  }

  lemma SkipTurns(st: Setting, p: Progress, pieces: set<Piece>, subs: map<Reg, Reg>)
    requires p.work != []
    requires var gi := GroupOf(st.groups, p.work[0], |st.groups|);
      p.work[0] in subs || (gi >= 0 && gi in p.placed) || (gi < 0 && !HasPiece(pieces, p.work[0]))
    ensures Turn(st, Moment(p, pieces, subs), Moment(Next(p), pieces, subs))
  {
    hide HasPiece;
  }

  lemma ColourTurns(st: Setting, p: Progress, pieces: set<Piece>, before: map<Reg, Reg>, subs: map<Reg, Reg>, c: Reg)
    requires p.work != [] && p.work[0] !in before && GroupOf(st.groups, p.work[0], |st.groups|) < 0 && subs == before[p.work[0] := c]
    requires c in Options(st, p.work[0]) && c !in Taken(st.max, Neighbours(pieces, p.work[0]), before)
    ensures Turn(st, Moment(p, pieces, before), Moment(Next(p), pieces, subs))
  {
    hide Options, Taken, Neighbours, Skips, Places, Spills;
    assert Colours(st, Moment(p, pieces, before), Moment(Next(p), pieces, subs));
  }

  lemma AssignStuck(st: Setting, p: Progress, pieces: set<Piece>, subs: map<Reg, Reg>)
    requires p.work != [] && p.work[0] !in subs && GroupOf(st.groups, p.work[0], |st.groups|) < 0 && HasPiece(pieces, p.work[0])
    requires Options(st, p.work[0]) <= Taken(st.max, Neighbours(pieces, p.work[0]), subs)
    ensures HeadStuck(st, Moment(p, pieces, subs))
  {
  }

  lemma NoPieces(g: Allocator, r: Reg)
    requires g.Valid() && r !in g.constraints
    ensures !HasPiece(g.pieces, r)
  {
  }

  lemma StepAssigned(st: Setting, orig: seq<Body>, p: Progress, v: View, pieces: set<Piece>, before: map<Reg, Reg>, subs: map<Reg, Reg>)
    requires Kept(st, orig, p, v, pieces, before) && p.work != [] && p.work[0] in subs && subs == before[p.work[0] := subs[p.work[0]]]
    requires p.work[0] !in before && p.work[0].id < p.unused && Ordinary(st.x, p.work[0])
    requires Ordinary(st.x, subs[p.work[0]]) && (p.work[0] in st.choices ==> subs[p.work[0]] in st.choices[p.work[0]])
    ensures Kept(st, orig, Next(p), v, pieces, subs)
  {
    hide Kept;
    StepColored(st, orig, p, p.placed, v, pieces, before, subs);
    assert Next(p) == Next(p).(placed := p.placed);
  }

  lemma GroupFacts(st: Setting, gi: int)
    requires SettingOk(st) && 0 <= gi < |st.groups|
    ensures var group := st.groups[gi]; var regs := st.regs(group[0].space);
      && group != [] && NoRepeats(group) && NoRepeats(regs) && |group| <= |regs| && regs != []
      && (forall i :: 0 <= i < |regs| ==> Physical(st.max, regs[i])) && (forall i :: 0 <= i < |regs| ==> Ordinary(st.x, regs[i]))
      && (forall r :: r in st.x.always + st.x.never ==> Physical(st.max, r))
      && (forall i, j :: 0 <= i < |group| && 0 <= j < |regs| ==> group[i].space == regs[j].space)
      && forall i :: 0 <= i < |group| ==> !Physical(st.max, group[i]) && group[i].id < st.first
  {
    var group := st.groups[gi];
    var regs := st.regs(group[0].space);
    assert GroupOk(st, group);
    forall i | 0 <= i < |regs| ensures Physical(st.max, regs[i]) && Ordinary(st.x, regs[i]) && regs[i].space == group[0].space {
      assert Handable(st, group[0].space, regs[i]);
    }
    forall i | 0 <= i < |group| ensures MemberOk(st, group[0].space, group[i]) {}
  }

  lemma NewColorsKept(st: Setting, p: Progress, group: seq<Reg>, regs: seq<Reg>, before: map<Reg, Reg>, subs: map<Reg, Reg>)
    requires forall r :: r in subs ==> r in before || (r in group && subs[r] in regs && (r in st.choices ==> subs[r] in st.choices[r]))
    requires forall i :: 0 <= i < |regs| ==> Ordinary(st.x, regs[i])
    requires forall i :: 0 <= i < |group| ==> !Physical(st.max, group[i]) && group[i].id < st.first
    requires st.first <= p.unused && forall r :: r in st.x.always + st.x.never ==> Physical(st.max, r)
    ensures forall r :: r in subs && r !in before ==> ColorKept(st, p, r, subs[r])
  {
    forall r | r in subs && r !in before ensures ColorKept(st, p, r, subs[r]) {
      assert !Ordinary(st.x, r) ==> r in st.x.always + st.x.never;
    }
  }

  /** Tries to place the whole group of the first register. */
  method GroupStep(st: Setting, ghost orig: seq<Body>, g: Allocator, p: Progress, ghost v: View, gi: nat) returns (done: bool, p': Progress)
    requires SettingOk(st) && g.Valid() && g.max == st.max && Kept(st, orig, p, v, g.pieces, g.subs) && p.work != []
    requires gi < |st.groups| && p.work[0] in st.groups[gi] && gi == GroupOf(st.groups, p.work[0], |st.groups|)
    requires p.work[0] !in g.subs && gi !in p.placed
    modifies g`subs
    ensures g.Valid() && Kept(st, orig, p', v, g.pieces, g.subs)
    ensures p' == if done then Placing(p, gi) else p
    ensures done ==> Turn(st, Moment(p, g.pieces, old(g.subs)), Moment(p', g.pieces, g.subs))
    ensures !done ==> g.subs == old(g.subs) && HeadStuck(st, Moment(p, g.pieces, g.subs))
  {
    hide *;
    var group := st.groups[gi];
    GroupFacts(st, gi);
    WorkHead(st, orig, p, v, g.pieces, g.subs);
    var regs := st.regs(group[0].space);
    ShortGroupRoomy(g.pieces, group, |regs|);
    ghost var before := g.subs;
    p' := p;
    done := g.AssignGroup(group, regs, st.choices);
    if done {
      p' := Placing(p, gi);
      NewColorsKept(st, p, group, regs, before, g.subs);
      StepPlaced(st, orig, p, gi, v, g.pieces, before, g.subs);
      PlaceTurns(st, p, gi, g.pieces, before, g.subs);
    } else {
      GroupStuck(st, g, p, gi);
    }
  }

  lemma PlaceTurns(st: Setting, p: Progress, gi: nat, pieces: set<Piece>, before: map<Reg, Reg>, subs: map<Reg, Reg>)
    requires p.work != [] && gi < |st.groups| && gi == GroupOf(st.groups, p.work[0], |st.groups|) && gi !in p.placed && st.groups[gi] != []
    requires forall r :: r in before ==> r in subs && subs[r] == before[r]
    requires exists base :: 0 <= base < |st.regs(st.groups[gi][0].space)| && GroupAt(st.groups[gi], st.regs(st.groups[gi][0].space), subs, base)
    ensures Turn(st, Moment(p, pieces, before), Moment(Placing(p, gi), pieces, subs))
  {
    hide GroupAt, Skips, Colours, Spills;
    assert Places(st, Moment(p, pieces, before), Moment(Placing(p, gi), pieces, subs));
  }

  lemma GroupStuck(st: Setting, g: Allocator, p: Progress, gi: nat)
    requires g.Valid() && g.max == st.max && p.work != [] && gi < |st.groups| && gi == GroupOf(st.groups, p.work[0], |st.groups|) && gi !in p.placed
    requires p.work[0] !in g.subs && st.groups[gi] != [] && st.regs(st.groups[gi][0].space) != []
    requires forall base: nat :: base < |st.regs(st.groups[gi][0].space)| ==>
      !FitsAll(st.max, g.constraints, g.subs, st.choices, st.groups[gi], st.regs(st.groups[gi][0].space), base)
    ensures HeadStuck(st, Moment(p, g.pieces, g.subs))
  {
    GraphExact(g.pieces, g.constraints);
    hide FitsAll, Exact, Proper, SubsOk;
    var m := Moment(p, g.pieces, g.subs);
    forall base: nat | base < |st.regs(st.groups[gi][0].space)| ensures !GroupFitsAt(st, m, gi, base) {}
  }

  lemma StepPlaced(st: Setting, orig: seq<Body>, p: Progress, gi: nat, v: View, pieces: set<Piece>, before: map<Reg, Reg>, subs: map<Reg, Reg>)
    requires Kept(st, orig, p, v, pieces, before) && p.work != [] && gi < |st.groups| && p.work[0] in st.groups[gi]
    requires forall r :: r in before ==> r in subs && subs[r] == before[r]
    requires forall r :: r in subs && r !in before ==> ColorKept(st, p, r, subs[r])
    requires forall i :: 0 <= i < |st.groups[gi]| ==> IsColored(st.max, subs, st.groups[gi][i])
    ensures Kept(st, orig, Placing(p, gi), v, pieces, subs)
  {
    assert GroupKept(st, st.groups[gi], pieces, subs);
    var i :| 0 <= i < |st.groups[gi]| && st.groups[gi][i] == p.work[0];
    hide Kept;
    StepColored(st, orig, p, p.placed + {gi}, v, pieces, before, subs);
  }

  /** One register from the list: skipped, coloured, placed with its group, or something is spilled
      for it and it is put back.
   */
  method AllocateOne(st: Setting, ghost orig: seq<Body>, g: Allocator, p: Progress, ghost v: View) returns (why: Ending, p': Progress, ghost n: View)
    requires SettingOk(st) && g.Valid() && g.max == st.max && Kept(st, orig, p, v, g.pieces, g.subs) && p.work != []
    modifies g
    ensures why == Going ==> g.Valid() && Kept(st, orig, p', n, g.pieces, g.subs)
    ensures why == Going ==> Turn(st, Moment(p, old(g.pieces), old(g.subs)), Moment(p', g.pieces, g.subs))
    ensures why != Going ==> Refuses(st, Moment(p, old(g.pieces), old(g.subs)), why)
  {
    hide Turn, Refuses, HeadStuck, Kept, SettingOk;
    var r := p.work[0];
    why, n := Going, v;
    if r in g.subs {
      StepSkipped(st, orig, p, v, g.pieces, g.subs);
      SkipTurns(st, p, g.pieces, g.subs);
      p' := Next(p);
      return;
    }
    var done: bool;
    var gi := GroupOf(st.groups, r, |st.groups|);
    if gi >= 0 {
      if gi in p.placed {
        PlacedMember(st, orig, p, v, g.pieces, g.subs, gi);
        StepSkipped(st, orig, p, v, g.pieces, g.subs);
        SkipTurns(st, p, g.pieces, g.subs);
        p' := Next(p);
        return;
      }
      done, p' := GroupStep(st, orig, g, p, v, gi);
    } else {
      done, p' := AssignStep(st, orig, g, p, v);
    }
    if !done {
      why, p', n := SpillStep(st, orig, g, p, v);
    }
  }

  lemma PlacedMember(st: Setting, orig: seq<Body>, p: Progress, v: View, pieces: set<Piece>, subs: map<Reg, Reg>, gi: int)
    requires Kept(st, orig, p, v, pieces, subs) && p.work != [] && gi in p.placed && 0 <= gi < |st.groups| && p.work[0] in st.groups[gi]
    ensures IsColored(st.max, subs, p.work[0]) || !HasPiece(pieces, p.work[0])
  {
    assert GroupKept(st, st.groups[gi], pieces, subs);
    var i :| 0 <= i < |st.groups[gi]| && st.groups[gi][i] == p.work[0];
  }

  // ----- from start to finish

  /** Nothing but the inputs is live on entry: no register is read before it is written. */
  ghost predicate NothingElseLive(st: Setting, src: seq<Source>) {
    var p := ProgramOf(st.x, Bodies(src), st.inputs, st.outputs);
    WellFormed(p) && forall ins, outs :: Solution(p, ins, outs) && Least(p, ins, outs) ==> forall r :: r in ins[0] && Ordinary(st.x, r) ==> r in st.inputs
  }

  /** Any solution of the liveness equations can show it. */
  lemma SolutionClean(st: Setting, src: seq<Source>, ins: seq<set<Reg>>, outs: seq<set<Reg>>)
    requires WellFormed(ProgramOf(st.x, Bodies(src), st.inputs, st.outputs))
    requires Solution(ProgramOf(st.x, Bodies(src), st.inputs, st.outputs), ins, outs)
    requires forall r :: r in ins[0] && Ordinary(st.x, r) ==> r in st.inputs
    ensures NothingElseLive(st, src)
  {
    var p := ProgramOf(st.x, Bodies(src), st.inputs, st.outputs);
    forall ins', outs' | Solution(p, ins', outs') && Least(p, ins', outs')
      ensures forall r :: r in ins'[0] && Ordinary(st.x, r) ==> r in st.inputs
    {
      assert Under(ins', outs', ins, outs);
      assert ins'[0] <= ins[0];
    }
  }

  /** A register c is received, d is computed from it, and both are read before the return. */
  function SomeSource(c: Reg, d: Reg): seq<Source> { [Source([Plain(0, [c], [d], {}), Plain(1, [c, d], [], {})], [])] }

  /** Registers a and b, of which c may only be a. */
  function SomeSetting(a: Reg, b: Reg, c: Reg, d: Reg): Setting
    requires d.id >= 0
  {
    Setting(b.id, Special({}, {}), d.id + 1, {c}, {}, map[c := {a}], [], space => if space == a.space then [a, b] else [])
  }

  lemma SomeGiven(st: Setting, src: seq<Source>, a: Reg, b: Reg, c: Reg, d: Reg)
    requires a.space == b.space == c.space == d.space && 0 <= a.id < b.id < c.id < d.id
    requires src == SomeSource(c, d) && st == SomeSetting(a, b, c, d)
    ensures GivenFn(st.max, st.x, st.first, src, st.inputs, st.outputs) && SettingOk(st)
  {
    forall k | 0 <= k < |src[0].ops| ensures GivenOp(st.max, st.first, src[0].ops[k]) {}
    assert GivenSource(st.max, st.first, src[0]);
  }

  lemma SomeOptions(st: Setting, a: Reg, b: Reg, c: Reg, d: Reg)
    requires a.space == b.space == c.space == d.space && 0 <= a.id < b.id < c.id < d.id && st == SomeSetting(a, b, c, d)
    ensures Options(st, c) == {a} && Options(st, d) == {a, b}
  {
  }

  /** What finalize is given can be met, and with two steps or more it has a result. */
  lemma SomeFunction(a: Reg, b: Reg, c: Reg, d: Reg) returns (st: Setting, src: seq<Source>)
    requires a.space == b.space == c.space == d.space && 0 <= a.id < b.id < c.id < d.id
    ensures src == SomeSource(c, d) && st == SomeSetting(a, b, c, d)
    ensures GivenFn(st.max, st.x, st.first, src, st.inputs, st.outputs) && SettingOk(st) && NothingElseLive(st, src)
    ensures forall steps: nat :: steps >= 2 ==> Plenty(st, src, steps)
  {
    src, st := SomeSource(c, d), SomeSetting(a, b, c, d);
    hide GivenFn, SettingOk, NothingElseLive, Plenty, Options;
    SomeGiven(st, src, a, b, c, d);
    SomeFunctionClean(st, src, c, d);
    SomeOptions(st, a, b, c, d);
    SomePlenty(st, src, c, d);
    forall steps: nat | steps >= 2 ensures Plenty(st, src, steps) { MoreSteps(st, src, steps); }
  }

  lemma MoreSteps(st: Setting, src: seq<Source>, steps: nat)
    requires Plenty(st, src, 2) && steps >= 2
    ensures Plenty(st, src, steps)
  {
    hide Started, Spacious, ClobbersSound;
  }

  /** The register that is received has the longer ranges, so it gets its only choice first. */
  lemma SomePlenty(st: Setting, src: seq<Source>, c: Reg, d: Reg)
    requires src == [Source([Plain(0, [c], [d], {}), Plain(1, [c, d], [], {})], [])] && c != d
    requires st.x == Special({}, {}) && st.inputs == {c} && st.outputs == {} && st.groups == []
    requires !Physical(st.max, c) && !Physical(st.max, d) && |Options(st, c)| == 1 && |Options(st, d)| == 2
    ensures Plenty(st, src, 2)
  {
    forall ins, outs | LeastLive(st, src, ins, outs) ensures outs == [{}] { SomeLive(st, src, c, d, ins, outs); }
    var code := Bodies(src)[0].code;
    assert code == [Placed(1.0, src[0].ops[0]), Placed(2.0, src[0].ops[1])];
    forall r ensures ClobbersDead(code, r, false) { SomeClobbers(code, r); }
    hide LeastLive, Bodies, RangesOf, Options, Weight;
    forall m | Started(st, src, m) ensures Spacious(st, m) && |m.p.work| <= 2 {
      assert m.p.outs == [{}];
      forall r ensures RangesOf(code, r, false) == if r == c then [Range(0.0, 2.0)] else if r == d then [Range(1.0, 2.0)] else [] {
        SomeRanges(code, c, d, r);
      }
      SomeOrder(st, Bodies(src), code, c, d, m);
    }
  }

  lemma SomeLive(st: Setting, src: seq<Source>, c: Reg, d: Reg, ins: seq<set<Reg>>, outs: seq<set<Reg>>)
    requires src == [Source([Plain(0, [c], [d], {}), Plain(1, [c, d], [], {})], [])] && c != d
    requires st.x == Special({}, {}) && st.inputs == {c} && st.outputs == {} && LeastLive(st, src, ins, outs)
    ensures outs == [{}]
  {
    var p := ProgramOf(st.x, Bodies(src), st.inputs, st.outputs);
    var code := p.blocks[0].code;
    assert code[0] == Instr({c}, {d}, {}) && code[1] == Instr({c, d}, {}, {});
    LiveThrough(code, c, d);
    hide LiveAt, Bodies, ProgramOf;
    assert Solution(p, [{c}], [{}]);
    assert Under(ins, outs, [{c}], [{}]);
    assert outs[0] == {};
  }

  lemma SomeClobbers(c: code, r: Reg)
    requires |c| == 2 && c[0].op.Clobbers() == {} && c[1].op.Clobbers() == {}
    ensures ClobbersDead(c, r, false)
  {
    assert ClobbersDead(c[1..], r, false);
  }

  lemma SomeRanges(code: code, c: Reg, d: Reg, r: Reg)
    requires code == [Placed(1.0, Plain(0, [c], [d], {})), Placed(2.0, Plain(1, [c, d], [], {}))] && c != d
    ensures RangesOf(code, r, false) == if r == c then [Range(0.0, 2.0)] else if r == d then [Range(1.0, 2.0)] else []
  {
    var stop := LastPos(code) + 1.0;
    assert code[1..][1..] == [];
    assert ScanOf(code[1..], r, false, stop) == ScanNext(code[1], r, Scan([], false, stop));
  }

  lemma SomeOrder(st: Setting, bodies: seq<Body>, code: code, c: Reg, d: Reg, m: Moment)
    requires bodies == [Body(code, [])] && code != [] && m.p.outs == [{}] && st.x == Special({}, {}) && c != d
    requires !Physical(st.max, c) && !Physical(st.max, d) && |Options(st, c)| == 1 && |Options(st, d)| == 2
    requires AllRecorded(st.x, bodies, m.p.outs, m.pieces) && Ordered(st, bodies, m.p.outs, m.pieces, m.p.work)
    requires forall r :: RangesOf(code, r, false) == if r == c then [Range(0.0, 2.0)] else if r == d then [Range(1.0, 2.0)] else []
    ensures Spacious(st, m) && |m.p.work| <= 2
  {
    hide RangesOf, Options;
    var work := m.p.work;
    assert Piece(0, c, Range(0.0, 2.0)) in m.pieces && Piece(0, d, Range(1.0, 2.0)) in m.pieces;
    assert RegsOf(m.pieces) == {c, d};
    assert Weight(bodies, m.p.outs, 1, c) == 2.0 by { assert Weight(bodies, m.p.outs, 0, c) == 0.0; assert [Range(0.0, 2.0)][1..] == []; }
    assert Weight(bodies, m.p.outs, 1, d) == 1.0 by { assert Weight(bodies, m.p.outs, 0, d) == 0.0; assert [Range(1.0, 2.0)][1..] == []; }
    TwoInOrder(r => Weight(bodies, m.p.outs, |bodies|, r), work, c, d);
    assert ColouredBefore(st, m, 0) == {};
    assert ColouredBefore(st, m, 1) <= {c};
    SubsetCount(ColouredBefore(st, m, 1), {c});
  }

  lemma TwoInOrder(weight: Reg -> real, work: seq<Reg>, c: Reg, d: Reg)
    requires ByWeight(weight, work) && NoRepeats(work) && (forall r :: r in work <==> r == c || r == d) && c != d && weight(c) > weight(d)
    ensures work == [c, d]
  {
    assert c in work && d in work;
    var i :| 0 <= i < |work| && work[i] == c;
    var j :| 0 <= j < |work| && work[j] == d;
    assert i < j;
    PlaceOf(work, c, d, i, j, 0);
    PlaceOf(work, c, d, i, j, 1);
    if |work| > 2 { PlaceOf(work, c, d, i, j, 2); }
  }

  lemma PlaceOf(work: seq<Reg>, c: Reg, d: Reg, i: nat, j: nat, k: nat)
    requires i < |work| && j < |work| && k < |work| && work[i] == c && work[j] == d && NoRepeats(work)
    requires forall r :: r in work <==> r == c || r == d
    ensures k == i || k == j
  {
    assert work[k] in work;
  }

  lemma SomeFunctionClean(st: Setting, src: seq<Source>, c: Reg, d: Reg)
    requires src == [Source([Plain(0, [c], [d], {}), Plain(1, [c, d], [], {})], [])] && c != d
    requires st.x == Special({}, {}) && st.inputs == {c} && st.outputs == {}
    ensures NothingElseLive(st, src)
  {
    var p := ProgramOf(st.x, Bodies(src), st.inputs, st.outputs);
    var code := p.blocks[0].code;
    assert code[0] == Instr({c}, {d}, {}) && code[1] == Instr({c, d}, {}, {});
    LiveThrough(code, c, d);
    hide LiveAt, Bodies, ProgramOf, NothingElseLive;
    assert Solution(p, [{c}], [{}]);
    SolutionClean(st, src, [{c}], [{}]);
  }

  lemma LiveThrough(code: seq<Instr>, c: Reg, d: Reg)
    requires |code| == 2 && code[0] == Instr({c}, {d}, {}) && code[1] == Instr({c, d}, {}, {}) && c != d
    ensures Transfer(Special({}, {}), code, {}) == {c}
  {
    var x := Special({}, {});
    assert LiveAt(x, code, {}, 1) == {c, d};
    assert LiveAt(x, code, {}, 0) == {c};
  }

  lemma StartKept(st: Setting, src: seq<Source>, ins: seq<set<Reg>>, outs: seq<set<Reg>>, pieces: set<Piece>, work: seq<Reg>)
    requires GivenFn(st.max, st.x, st.first, src, st.inputs, st.outputs) && Flow(st.x, Bodies(src), st.outputs, ins, outs)
    requires forall b, r: Reg :: 0 <= b < |src| && r in ins[b] + outs[b] ==> r.id < st.first
    requires CoversNeeds(st.x, Bodies(src), outs, pieces) && PiecesOf(st.x, Bodies(src), st.first, pieces)
    requires forall r :: r in work <==> r in RegsOf(pieces) && !Physical(st.max, r)
    requires forall r :: r in ins[0] && Ordinary(st.x, r) ==> r in st.inputs
    ensures Kept(st, Bodies(src), Progress(Fn([], Bodies(src)), outs, map[], st.first, {}, work, {}),
              FirstView(|src|, ins, outs, st.first), pieces, map[])
  {
    var p, v := Progress(Fn([], Bodies(src)), outs, map[], st.first, {}, work, {}), FirstView(|src|, ins, outs, st.first);
    StartsSpillable(st.max, st.x, st.first, src, st.inputs, st.outputs, ins, outs);
    forall q | q in pieces ensures PieceKept(st, p, v, q) {}
    forall q | q in pieces ensures IsColored(st.max, map[], q.reg) || q.reg in work {
      assert q.reg in RegsOf(pieces);
    }
    forall i | 0 <= i < |work| ensures !Physical(st.max, work[i]) && work[i].id < st.first {
      assert work[i] in RegsOf(pieces);
      var q :| q in pieces && q.reg == work[i];
    }
  }

  lemma EndFinalized(st: Setting, orig: seq<Body>, p: Progress, v: View, pieces: set<Piece>, subs: map<Reg, Reg>)
    requires Kept(st, orig, p, v, pieces, subs) && p.work == [] && SubsOk(st.max, subs) && Proper(st.max, pieces, subs)
    ensures Finalized(st.max, st.x, orig, st.inputs, st.outputs, p.f, v, subs)
    ensures forall r :: r in subs && r in st.choices ==> subs[r] in st.choices[r]
  {
    forall q | q in pieces ensures q.range.begin <= q.range.end && IsColored(st.max, subs, q.reg) {
      assert PieceKept(st, p, v, q);
    }
    forall r | r in subs ensures Ordinary(st.x, r) && Ordinary(st.x, subs[r]) && (r in st.choices ==> subs[r] in st.choices[r]) {
      assert ColorKept(st, p, r, subs[r]);
    }
    forall b | 0 <= b < |p.f.bodies| ensures ClobbersPhysical(st.max, p.f.bodies[b].code) {
      assert BlockSpillable(st.max, p.f.bodies, v, b);
      FineClobbers(st.max, v.og, v.unused, p.f.bodies[b].code);
    }
    hide Spillable, Computes, Proper, CoversNeeds;
    ColoringAllocates(st.max, st.x, p.f.bodies, v.outs, pieces, subs);
  }

  lemma FineClobbers(max: int, og: Reg -> Reg, unused: nat, c: code)
    requires BlockFine(max, og, unused, c)
    ensures ClobbersPhysical(max, c)
  {
    forall k, r | 0 <= k < |c| && r in c[k].op.Clobbers() ensures Physical(max, r) {
      assert OpFine(max, og, unused, c[k].op);
    }
  }

  lemma GivenBlocks(max: int, x: Special, first: nat, src: seq<Source>, inputs: set<Reg>, outputs: set<Reg>)
    requires GivenFn(max, x, first, src, inputs, outputs)
    ensures forall b :: 0 <= b < |src| ==> Laid(Bodies(src)[b].code)
    ensures forall b, k :: 0 <= b < |src| && 0 <= k < |src[b].ops| ==> Below(Bodies(src)[b].code[k].op, first)
  {
    forall b | 0 <= b < |src| ensures Laid(Bodies(src)[b].code) {
      assert GivenSource(max, first, src[b]);
      SourceLaid(max, first, src[b]);
    }
    forall b, k | 0 <= b < |src| && 0 <= k < |src[b].ops| ensures Below(Bodies(src)[b].code[k].op, first) {
      assert GivenSource(max, first, src[b]) && GivenOp(max, first, src[b].ops[k]);
    }
  }

  lemma CleanEntry(st: Setting, src: seq<Source>, ins: seq<set<Reg>>, outs: seq<set<Reg>>)
    requires NothingElseLive(st, src)
    ensures var p := ProgramOf(st.x, Bodies(src), st.inputs, st.outputs);
      WellFormed(p) && (Solution(p, ins, outs) && Least(p, ins, outs) ==> forall r :: r in ins[0] && Ordinary(st.x, r) ==> r in st.inputs)
  {
  }

  lemma GivenLinked(max: int, x: Special, first: nat, src: seq<Source>, inputs: set<Reg>, outputs: set<Reg>)
    requires GivenFn(max, x, first, src, inputs, outputs)
    ensures Linked(Bodies(src))
  {
  }

  /** What the ranges of the least solution say of every least solution. */
  lemma ClobbersByRanges(st: Setting, src: seq<Source>, ins: seq<set<Reg>>, outs: seq<set<Reg>>)
    requires LeastLive(st, src, ins, outs) && |outs| == |src|
    ensures ClobbersSound(st, src) <==> forall b :: 0 <= b < |src| ==> ClobbersFine(st.x, Bodies(src)[b].code, outs[b])
  {
    hide LeastLive, ClobbersFine;
    forall ins', outs' | LeastLive(st, src, ins', outs') ensures outs' == outs { LeastLiveUnique(st, src, ins, outs, ins', outs'); }
  }

  lemma StartsMoment(st: Setting, src: seq<Source>, ins: seq<set<Reg>>, p: Progress, pieces: set<Piece>)
    requires LeastLive(st, src, ins, p.outs) && AllRecorded(st.x, Bodies(src), p.outs, pieces)
    requires Ordered(st, Bodies(src), p.outs, pieces, p.work)
    requires p == Progress(Fn([], Bodies(src)), p.outs, map[], st.first, {}, p.work, {})
    ensures Started(st, src, Moment(p, pieces, map[]))
  {
    hide LeastLive, AllRecorded, Ordered;
  }

  /** The registers to look at, longer ranges first. */
  method WorkList(st: Setting, bodies: seq<Body>, outs: seq<set<Reg>>, pieces: set<Piece>) returns (work: seq<Reg>)
    requires AllRecorded(st.x, bodies, outs, pieces)
    ensures Ordered(st, bodies, outs, pieces, work)
  {
    work := SortByWeight(r => if |bodies| == |outs| && (forall b :: 0 <= b < |bodies| ==> bodies[b].code != []) then Weight(bodies, outs, |bodies|, r) else 0.0,
      set r | r in RegsOf(pieces) && !Physical(st.max, r));
  }

  /** Liveness of the function and the live ranges of all its registers. Fails exactly if a register
      outlives an instruction that clobbers it.
   */
  method Prepare(st: Setting, src: seq<Source>) returns (ok: bool, p: Progress, pieces: set<Piece>, ghost v: View)
    requires GivenFn(st.max, st.x, st.first, src, st.inputs, st.outputs) && NothingElseLive(st, src)
    ensures ok <==> ClobbersSound(st, src)
    ensures ok ==> Kept(st, Bodies(src), p, v, pieces, map[]) && Started(st, src, Moment(p, pieces, map[]))
  {
    hide *;
    var bodies := Bodies(src);
    GivenLinked(st.max, st.x, st.first, src, st.inputs, st.outputs);
    GivenBlocks(st.max, st.x, st.first, src, st.inputs, st.outputs);
    UniverseBelow(st.max, st.x, st.first, src, st.inputs, st.outputs, |src|);
    CleanEntry(st, src, [], []);
    var program := ProgramOf(st.x, bodies, st.inputs, st.outputs);
    var ins, outs := SolveLiveness(program);
    CleanEntry(st, src, ins, outs);
    SolutionFlows(st.x, bodies, st.inputs, st.outputs, ins, outs);
    FlowLinked(st.x, bodies, st.outputs, ins, outs);
    LiveBelow(ins, outs, Universe(program, |src|), st.first);
    LeastLiveIntro(st, src, ins, outs);
    var work, fine := [], false;
    fine, pieces := BuildRanges(st.x, bodies, outs, st.first);
    ClobbersByRanges(st, src, ins, outs);
    ok := fine;
    if ok {
      work := WorkList(st, bodies, outs, pieces);
      OrderedMembers(st, bodies, outs, pieces, work);
    }
    p := Progress(Fn([], bodies), outs, map[], st.first, {}, work, {});
    v := FirstView(|src|, ins, outs, st.first);
    if ok {
      StartKept(st, src, ins, outs, pieces, work);
      StartsMoment(st, src, ins, p, pieces);
    }
  }

  lemma LeastLiveIntro(st: Setting, src: seq<Source>, ins: seq<set<Reg>>, outs: seq<set<Reg>>)
    requires var p := ProgramOf(st.x, Bodies(src), st.inputs, st.outputs); WellFormed(p) && Solution(p, ins, outs) && Least(p, ins, outs)
    ensures LeastLive(st, src, ins, outs)
  {
  }

  lemma OrderedMembers(st: Setting, bodies: seq<Body>, outs: seq<set<Reg>>, pieces: set<Piece>, work: seq<Reg>)
    requires AllRecorded(st.x, bodies, outs, pieces) && Ordered(st, bodies, outs, pieces, work)
    ensures forall r :: r in work <==> r in RegsOf(pieces) && !Physical(st.max, r)
  {
  }

  /** What an allocation returns with its trace, by the way it ends. */
  ghost predicate EndsAs(st: Setting, src: seq<Source>, steps: nat, why: Ending, trace: seq<Moment>) {
    if why == ClobberedLive then !ClobbersSound(st, src)
    else
      && ClobbersSound(st, src) && Trace(st, trace) && Started(st, src, trace[0]) && |trace| <= steps + 1
      && var last := trace[|trace| - 1];
        match why
        case Allocated => last.p.work == []
        case OutOfSteps => |trace| == steps + 1 && last.p.work != []
        case _ => Refuses(st, last, why)
  }

  lemma PlentyEnds(st: Setting, src: seq<Source>, steps: nat, why: Ending, trace: seq<Moment>)
    requires EndsAs(st, src, steps, why, trace) && Plenty(st, src, steps)
    ensures why == Allocated
  {
    hide Trace, Started, Refuses, ClobbersSound;
    assert ClobbersSound(st, src) by { PlentyClobbers(st, src, steps); }
    PlentySucceeds(st, src, steps, trace, why);
  }

  lemma PlentyClobbers(st: Setting, src: seq<Source>, steps: nat)
    requires Plenty(st, src, steps)
    ensures ClobbersSound(st, src)
  {
  }

  /** Liveness, live ranges, interference, and then the list of registers until nothing is left of it
      or the number of steps is used up. The result computes what the function does, as
      AllocationPreservesRuns states, and gives registers with explicit choices one of those. Without a
      result there is a reason: a register that outlives an instruction which clobbers it, all steps
      made with registers left, or a turn that the source refuses as well. With enough registers, and
      as many steps as registers, there is a result.
   */
  method Finalize(st: Setting, src: seq<Source>, steps: nat)
    returns (why: Ending, f: Fn, subs: map<Reg, Reg>, ghost v: View, ghost trace: seq<Moment>)
    requires GivenFn(st.max, st.x, st.first, src, st.inputs, st.outputs) && SettingOk(st) && NothingElseLive(st, src)
    ensures EndsAs(st, src, steps, why, trace)
    ensures why == Allocated ==> Finalized(st.max, st.x, Bodies(src), st.inputs, st.outputs, f, v, subs)
    ensures why == Allocated ==> trace != [] && f == trace[|trace| - 1].p.f && subs == trace[|trace| - 1].subs
    ensures why == Allocated ==> forall r :: r in subs && r in st.choices ==> subs[r] in st.choices[r]
    ensures Plenty(st, src, steps) ==> why == Allocated
  {
    ghost var orig := Bodies(src);
    hide *;
    var fine, p, pieces, view := Prepare(st, src);
    f, subs, v, trace := p.f, map[], view, [];
    if !fine {
      why := ClobberedLive;
      EndClobbered(st, src, steps);
      return;
    }
    var g := new Allocator(st.max, pieces);
    trace := [Moment(p, g.pieces, g.subs)];
    OneMoment(st, trace[0]);
    var left := steps;
    while p.work != []
      invariant g.Valid() && g.max == st.max && fresh(g) && Kept(st, orig, p, v, g.pieces, g.subs)
      invariant Trace(st, trace) && |trace| == steps - left + 1 && trace[|trace| - 1] == Moment(p, g.pieces, g.subs)
      invariant Started(st, src, trace[0])
      decreases left
    {
      if left == 0 {
        why := OutOfSteps;
        EndRun(st, src, steps, why, trace);
        return;
      }
      left := left - 1;
      var p';
      ghost var v';
      why, p', v' := AllocateOne(st, orig, g, p, v);
      if why != Going {
        RefusesOnly(st, trace[|trace| - 1], why);
        EndRun(st, src, steps, why, trace);
        return;
      }
      p, v := p', v';
      TraceGrows(st, trace, Moment(p, g.pieces, g.subs));
      trace := trace + [Moment(p, g.pieces, g.subs)];
    }
    why, f, subs := Allocated, p.f, g.subs;
    ValidParts(g);
    EndFinalized(st, orig, p, v, g.pieces, g.subs);
    EndRun(st, src, steps, why, trace);
  }

  lemma RefusesOnly(st: Setting, m: Moment, why: Ending)
    requires Refuses(st, m, why)
    ensures why == NoCandidate || why == DeadDefinition
  {
  }

  lemma ValidParts(g: Allocator)
    requires g.Valid()
    ensures SubsOk(g.max, g.subs) && Proper(g.max, g.pieces, g.subs)
  {
  }

  lemma EndClobbered(st: Setting, src: seq<Source>, steps: nat)
    requires !ClobbersSound(st, src)
    ensures EndsAs(st, src, steps, ClobberedLive, []) && !Plenty(st, src, steps)
  {
  }

  lemma OneMoment(st: Setting, m: Moment)
    ensures Trace(st, [m])
  {
  }

  lemma EndRun(st: Setting, src: seq<Source>, steps: nat, why: Ending, trace: seq<Moment>)
    requires ClobbersSound(st, src) && Trace(st, trace) && Started(st, src, trace[0]) && |trace| <= steps + 1
    requires why == Allocated ==> trace[|trace| - 1].p.work == []
    requires why == OutOfSteps ==> |trace| == steps + 1 && trace[|trace| - 1].p.work != []
    requires why != Allocated && why != OutOfSteps ==> Refuses(st, trace[|trace| - 1], why)
    ensures EndsAs(st, src, steps, why, trace)
    ensures Plenty(st, src, steps) ==> why == Allocated
  {
    hide ClobbersSound, Trace, Started, Plenty;
    assert why != ClobberedLive;
    if Plenty(st, src, steps) {
      hide Refuses;
      PlentyEnds(st, src, steps, why, trace);
    }
  }

  lemma LiveBelow(ins: seq<set<Reg>>, outs: seq<set<Reg>>, u: set<Reg>, first: nat)
    requires Inside(ins, outs, u) && forall r: Reg :: r in u ==> r.id < first
    ensures forall b, r: Reg :: 0 <= b < |ins| && r in ins[b] + outs[b] ==> r.id < first
    ensures forall b, r: Reg :: 0 <= b < |ins| && r in outs[b] ==> r.id < first
  {
  }

  /** That function gets its registers. */
  method AllocateSome(a: Reg, b: Reg, c: Reg, d: Reg, steps: nat) returns (why: Ending, f: Fn, subs: map<Reg, Reg>)
    requires a.space == b.space == c.space == d.space && 0 <= a.id < b.id < c.id < d.id && steps >= 2
    ensures why == Allocated
    ensures exists v :: Finalized(b.id, Special({}, {}), Bodies(SomeSource(c, d)), {c}, {}, f, v, subs)
  {
    hide *;
    var src, st := SomeSource(c, d), SomeSetting(a, b, c, d);
    ghost var st', src' := SomeFunction(a, b, c, d);
    SomeParts(a, b, c, d);
    ghost var v, trace;
    why, f, subs, v, trace := Finalize(st, src, steps);
  }

  lemma SomeParts(a: Reg, b: Reg, c: Reg, d: Reg)
    requires d.id >= 0
    ensures var st := SomeSetting(a, b, c, d); st.max == b.id && st.x == Special({}, {}) && st.inputs == {c} && st.outputs == {}
  {
  }
}
