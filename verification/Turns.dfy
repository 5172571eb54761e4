/** The order in which registers are looked at, what one turn of the allocation loop may do, and when
    it cannot go on.
 */
module Turns {
  import opened Liveness
  import opened Operations
  import opened LiveRanges
  import opened Coloring
  import opened Spilling
  import opened SpilledFunction
  import opened Finalization

  /** What does not change during an allocation: the physical registers are those up to max; regs
      lists those of a space that may be handed out; choices are the explicit ones, as for inputs
      and outputs; groups are the operands that need consecutive registers.
   */
  datatype Setting = Setting(max: int, x: Special, first: nat, inputs: set<Reg>, outputs: set<Reg>, choices: map<Reg, set<Reg>>,
                             groups: seq<seq<Reg>>, regs: int -> seq<Reg>)

  /** Where the loop is: the function so far, what is live out of its blocks, from which original each
      spilled-in register stems, the next fresh register, the registers spilled at the function's
      boundaries, the registers still to look at, and the groups that have been placed.
   */
  datatype Progress = Progress(f: Fn, outs: seq<set<Reg>>, homes: map<Reg, Reg>, unused: nat, stored: set<Reg>, work: seq<Reg>, placed: set<int>)

  /** All of the loop's state. */
  datatype Moment = Moment(p: Progress, pieces: set<Piece>, subs: map<Reg, Reg>)

  /** How an allocation ends, or that it goes on. It ends without a result if the steps are used up, or
      where the source's assertions fail: a register outlives an instruction that clobbers it, nothing
      can be spilled for a register without a place, or what is to be spilled is written in vain.
   */
  datatype Ending = Going | Allocated | OutOfSteps | ClobberedLive | NoCandidate | DeadDefinition

  function RegsOf(pieces: set<Piece>): set<Reg> { set p | p in pieces :: p.reg }

  function Next(p: Progress): Progress
    requires p.work != []
  {
    p.(work := p.work[1..])
  }

  function Placing(p: Progress, gi: int): Progress
    requires p.work != []
  {
    Next(p).(placed := p.placed + {gi})
  }

  /** The group a register belongs to, -1 if none. */
  function GroupOf(groups: seq<seq<Reg>>, r: Reg, n: nat): (gi: int)
    requires n <= |groups|
    ensures -1 <= gi < n && (gi >= 0 ==> r in groups[gi])
  {
    if n == 0 then -1 else if r in groups[n - 1] then n - 1 else GroupOf(groups, r, n - 1)
  }

  /** What may be assigned to a register: its explicit choices, or all of its space, but nothing special. */
  function Options(st: Setting, r: Reg): set<Reg> {
    if r in st.choices then set c | c in st.choices[r] && c !in st.x.always && c !in st.x.never else set c | c in st.regs(r.space)
  }

  /** Candidates for spilling: the virtual neighbours of the registers that found no place, and these. */
  function Candidates(max: int, constraints: map<Reg, set<Reg>>, rs: set<Reg>): set<Reg> {
    rs + set r, q | r in rs && r in constraints && q in constraints[r] && !Physical(max, q) :: q
  }

  // ----- where a spill reloads

  /** The instruction before k that mentions r, -1 if there is none. */
  function PrevUse(c: code, k: nat, r: Reg): (j: int)
    requires k <= |c|
    ensures -1 <= j < k && (j >= 0 ==> c[j].op.Mentions(r))
  {
    if k == 0 then -1 else if c[k - 1].op.Mentions(r) then k - 1 else PrevUse(c, k - 1, r)
  }

  /** Whether the range lies between a use and the next; before an input it already counts from just
      before it, where a reload would go.
   */
  predicate Meets(range: Range, use: Placed, r: Reg, at: real) {
    range.begin < at && if r in use.op.Ins() then use.pos <= range.end else range.Past(use.pos)
  }

  /** Whether the register that caused the spill is live between occurrence k of r and the one before it. */
  predicate CauseBetween(pieces: set<Piece>, cause: Reg, bodies: seq<Body>, r: Reg, b: int, k: int) {
    0 <= b < |bodies| && 0 <= k < |bodies[b].code| &&
    var c := bodies[b].code;
    var j := PrevUse(c, k, r);
    j >= 0 && exists p :: p in pieces && p.reg == cause && p.block == b && Meets(p.range, c[j], r, c[k].pos)
  }

  function CausedAt(pieces: set<Piece>, cause: Reg, bodies: seq<Body>, r: Reg): ((int, int)) -> bool {
    (at: (int, int)) => CauseBetween(pieces, cause, bodies, r, at.0, at.1)
  }

  // ----- registers with longer ranges come first

  function Length(rs: seq<Range>): real { if rs == [] then 0.0 else rs[0].end - rs[0].begin + Length(rs[1..]) }

  /** The length of all ranges of a register in the first n blocks. */
  function Weight(bodies: seq<Body>, outs: seq<set<Reg>>, n: nat, r: Reg): real
    requires n <= |bodies| == |outs| && forall b :: 0 <= b < |bodies| ==> bodies[b].code != []
  {
    if n == 0 then 0.0 else Weight(bodies, outs, n - 1, r) + Length(RangesOf(bodies[n - 1].code, r, r in outs[n - 1]))
  }

  ghost predicate ByWeight(weight: Reg -> real, work: seq<Reg>) { forall i, j :: 0 <= i < j < |work| ==> weight(work[i]) >= weight(work[j]) }

  function InsertByWeight(weight: Reg -> real, r: Reg, work: seq<Reg>): seq<Reg> {
    if work == [] || weight(r) > weight(work[0]) then [r] + work else [work[0]] + InsertByWeight(weight, r, work[1..])
  }

  lemma {:induction false} InsertedByWeight(weight: Reg -> real, r: Reg, work: seq<Reg>)
    requires ByWeight(weight, work) && NoRepeats(work) && r !in work
    ensures var w := InsertByWeight(weight, r, work);
      ByWeight(weight, w) && NoRepeats(w) && forall q :: q in w <==> q in work || q == r
  {
    if work != [] && weight(r) <= weight(work[0]) {
      var rest := work[1..];
      InsertedByWeight(weight, r, rest);
      var w, v := InsertByWeight(weight, r, work), InsertByWeight(weight, r, rest);
      assert work == [work[0]] + rest;
      forall j | 0 <= j < |v| ensures weight(work[0]) >= weight(v[j]) && work[0] != v[j] {
        assert v[j] in v;
        if v[j] != r {
          var k :| 0 <= k < |rest| && rest[k] == v[j];
          assert work[k + 1] == v[j];
        }
      }
      assert w == [work[0]] + v;
    } else {
      var w := [r] + work;
      forall j | 1 <= j < |w| ensures weight(r) >= weight(w[j]) && r != w[j] {
        assert w[j] == work[j - 1] && weight(work[0]) >= weight(work[j - 1]);
      }
    }
  }

  /** The elements of a set by weight. */
  method SortByWeight(weight: Reg -> real, s: set<Reg>) returns (work: seq<Reg>)
    ensures ByWeight(weight, work) && NoRepeats(work) && forall r :: r in work <==> r in s
  {
    work := [];
    var todo := s;
    while todo != {}
      invariant todo <= s && ByWeight(weight, work) && NoRepeats(work) && forall r :: r in work <==> r in s - todo
      decreases |todo|
    {
      hide ByWeight, NoRepeats, InsertByWeight;
      var r :| r in todo;
      InsertedByWeight(weight, r, work);
      todo, work := todo - {r}, InsertByWeight(weight, r, work);
    }
  }

  // ----- the graph of a moment

  ghost function Neighbours(pieces: set<Piece>, r: Reg): set<Reg> { set q | q in RegsOf(pieces) && Interferes(pieces, r, q) }

  ghost function GraphOf(pieces: set<Piece>): map<Reg, set<Reg>> { map r | r in RegsOf(pieces) :: Neighbours(pieces, r) }

  lemma HasRegs(pieces: set<Piece>, r: Reg)
    ensures HasPiece(pieces, r) <==> r in RegsOf(pieces)
  {
  }

  lemma GraphExact(pieces: set<Piece>, constraints: map<Reg, set<Reg>>)
    requires Exact(pieces, constraints)
    ensures constraints == GraphOf(pieces)
  {
    forall r ensures r in constraints <==> r in GraphOf(pieces) { HasRegs(pieces, r); }
    forall r | r in constraints ensures constraints[r] == Neighbours(pieces, r) {
      forall q ensures q in constraints[r] <==> q in Neighbours(pieces, r) {
        if Interferes(pieces, r, q) { InterferesSymmetric(pieces, r, q); HasRegs(pieces, q); }
      }
    }
  }

  // ----- one turn

  ghost predicate GroupFitsAt(st: Setting, m: Moment, gi: nat, base: nat)
    requires gi < |st.groups| && st.groups[gi] != [] && st.regs(st.groups[gi][0].space) != []
  {
    FitsAll(st.max, GraphOf(m.pieces), m.subs, st.choices, st.groups[gi], st.regs(st.groups[gi][0].space), base)
  }

  /** Nothing is free for the first register: every option is taken by a neighbour, or its group fits nowhere. */
  ghost predicate HeadStuck(st: Setting, m: Moment)
    requires m.p.work != []
  {
    var r := m.p.work[0];
    var gi := GroupOf(st.groups, r, |st.groups|);
    r !in m.subs &&
    if gi < 0 then HasPiece(m.pieces, r) && Options(st, r) <= Taken(st.max, Neighbours(m.pieces, r), m.subs)
    else
      && gi !in m.p.placed && st.groups[gi] != [] && st.regs(st.groups[gi][0].space) != []
      && forall base: nat :: base < |st.regs(st.groups[gi][0].space)| ==> !GroupFitsAt(st, m, gi, base)
  }

  function Stuck(st: Setting, r: Reg): set<Reg> {
    var gi := GroupOf(st.groups, r, |st.groups|);
    if gi < 0 then {r} else set q | q in st.groups[gi]
  }

  /** What may be spilled for it; what has been spilled at the function's boundaries is not spilled again. */
  ghost function SpillOptions(st: Setting, m: Moment): set<Reg>
    requires m.p.work != []
  {
    set q | q in Candidates(st.max, GraphOf(m.pieces), Stuck(st, m.p.work[0])) && q in RegsOf(m.pieces) && q !in m.p.stored && !Physical(st.max, q)
  }

  ghost predicate Skips(st: Setting, a: Moment, b: Moment)
    requires a.p.work != []
  {
    var r := a.p.work[0];
    var gi := GroupOf(st.groups, r, |st.groups|);
    (r in a.subs || (gi >= 0 && gi in a.p.placed) || (gi < 0 && !HasPiece(a.pieces, r))) && b == Moment(Next(a.p), a.pieces, a.subs)
  }

  ghost predicate Colours(st: Setting, a: Moment, b: Moment)
    requires a.p.work != []
  {
    var r := a.p.work[0];
    r !in a.subs && GroupOf(st.groups, r, |st.groups|) < 0 && b.p == Next(a.p) && b.pieces == a.pieces
    && exists c :: c in Options(st, r) && c !in Taken(st.max, Neighbours(a.pieces, r), a.subs) && b.subs == a.subs[r := c]
  }

  ghost predicate Places(st: Setting, a: Moment, b: Moment)
    requires a.p.work != []
  {
    var gi := GroupOf(st.groups, a.p.work[0], |st.groups|);
    && gi >= 0 && gi !in a.p.placed && b.p == Placing(a.p, gi) && b.pieces == a.pieces && st.groups[gi] != []
    && (forall r :: r in a.subs ==> r in b.subs && b.subs[r] == a.subs[r])
    && exists base: nat :: GroupAt(st.groups[gi], st.regs(st.groups[gi][0].space), b.subs, base)
  }

  /** q gives way: it loses its colour and its ranges, and the registers of its new ranges, then the
      first register again, come to the end of the list. No new range reaches across a reload, and there
      is one before every read that is separated from the occurrence before it by the first register.
   */
  ghost predicate SpillsFor(st: Setting, a: Moment, b: Moment, q: Reg)
    requires a.p.work != []
  {
    && q in SpillOptions(st, a) && |a.p.outs| == |a.p.f.bodies| && !Unspillable(a.p.f.bodies, a.p.outs, q) && b.subs == a.subs - {q}
    && exists more, added ::
      && b.pieces == Without(a.pieces, q) + more && b.p.work == a.p.work[1..] + added + [a.p.work[0]]
      && (forall r :: r in added <==> r in RegsOf(more))
      && (forall n :: n in more ==> NewPiece(n, q, q in st.inputs || q in st.outputs, a.p.unused, b.p.unused))
      && AllApart(a.p.f.bodies, q, CausedAt(a.pieces, a.p.work[0], a.p.f.bodies, q), more)
  }

  ghost predicate Spills(st: Setting, a: Moment, b: Moment)
    requires a.p.work != []
  {
    HeadStuck(st, a) && exists q :: SpillsFor(st, a, b, q)
  }

  /** What one turn does: the first register needs nothing, or gets a colour, or a place with its group,
      or only if there is none something is spilled for it.
   */
  ghost predicate Turn(st: Setting, a: Moment, b: Moment) {
    a.p.work != [] && (Skips(st, a, b) || Colours(st, a, b) || Places(st, a, b) || Spills(st, a, b))
  }

  /** The loop cannot go on: nothing to spill, or something that the source refuses to spill. */
  ghost predicate Refuses(st: Setting, m: Moment, why: Ending) {
    m.p.work != [] && HeadStuck(st, m) &&
    match why
    case NoCandidate => SpillOptions(st, m) == {}
    case DeadDefinition =>
      |m.p.outs| == |m.p.f.bodies| && exists q :: q in SpillOptions(st, m) && Unspillable(m.p.f.bodies, m.p.outs, q)
    case _ => false
  }

  ghost predicate Trace(st: Setting, trace: seq<Moment>) {
    trace != [] && forall i :: 0 <= i < |trace| - 1 ==> Turn(st, trace[i], trace[i + 1])
  }

  lemma TraceGrows(st: Setting, trace: seq<Moment>, m: Moment)
    requires Trace(st, trace) && Turn(st, trace[|trace| - 1], m)
    ensures Trace(st, trace + [m])
  {
    hide Turn;
    var more := trace + [m];
    forall i | 0 <= i < |more| - 1 ensures Turn(st, more[i], more[i + 1]) {
      if i < |trace| - 1 { assert more[i] == trace[i] && more[i + 1] == trace[i + 1]; }
    }
  }

  // ----- the beginning

  ghost predicate LeastLive(st: Setting, src: seq<Source>, ins: seq<set<Reg>>, outs: seq<set<Reg>>) {
    var p := ProgramOf(st.x, Bodies(src), st.inputs, st.outputs);
    WellFormed(p) && Solution(p, ins, outs) && Least(p, ins, outs)
  }

  lemma LeastLiveUnique(st: Setting, src: seq<Source>, ins: seq<set<Reg>>, outs: seq<set<Reg>>, ins': seq<set<Reg>>, outs': seq<set<Reg>>)
    requires LeastLive(st, src, ins, outs) && LeastLive(st, src, ins', outs')
    ensures ins == ins' && outs == outs'
  {
    assert Under(ins, outs, ins', outs') && Under(ins', outs', ins, outs);
    forall b | 0 <= b < |ins| ensures ins[b] == ins'[b] && outs[b] == outs'[b] {}
  }

  /** By the liveness of the function, no register outlives an instruction that clobbers it. */
  ghost predicate ClobbersSound(st: Setting, src: seq<Source>) {
    forall ins, outs :: LeastLive(st, src, ins, outs) ==>
      |outs| == |src| && forall b :: 0 <= b < |src| ==> ClobbersFine(st.x, Bodies(src)[b].code, outs[b])
  }

  /** The registers in the order of their weights. */
  ghost predicate Ordered(st: Setting, bodies: seq<Body>, outs: seq<set<Reg>>, pieces: set<Piece>, work: seq<Reg>)
    requires |outs| == |bodies| && forall b :: 0 <= b < |bodies| ==> bodies[b].code != []
  {
    && NoRepeats(work) && (forall r :: r in work <==> r in RegsOf(pieces) && !Physical(st.max, r))
    && ByWeight(r => Weight(bodies, outs, |bodies|, r), work)
  }

  ghost predicate Started(st: Setting, src: seq<Source>, m: Moment) {
    && (exists ins :: LeastLive(st, src, ins, m.p.outs)) && AllRecorded(st.x, Bodies(src), m.p.outs, m.pieces)
    && Ordered(st, Bodies(src), m.p.outs, m.pieces, m.p.work)
    && m.p == Progress(Fn([], Bodies(src)), m.p.outs, map[], st.first, {}, m.p.work, {}) && m.subs == map[]
  }

  // ----- enough registers for all

  /** Neighbours of the register at i that may have a colour when its turn comes. */
  ghost function ColouredBefore(st: Setting, m: Moment, i: nat): set<Reg>
    requires i < |m.p.work|
  {
    set q | q in Neighbours(m.pieces, m.p.work[i]) && (Physical(st.max, q) || q in m.p.work[..i])
  }

  /** Every register has more options than it has neighbours with a colour when its turn comes. */
  ghost predicate Spacious(st: Setting, m: Moment) { forall i :: 0 <= i < |m.p.work| ==> |ColouredBefore(st, m, i)| < |Options(st, m.p.work[i])| }

  /** Whatever the order: more options than neighbours. */
  lemma FewNeighbours(st: Setting, m: Moment)
    requires forall r :: r in m.p.work ==> |Neighbours(m.pieces, r)| < |Options(st, r)|
    ensures Spacious(st, m)
  {
    forall i | 0 <= i < |m.p.work| ensures |ColouredBefore(st, m, i)| < |Options(st, m.p.work[i])| {
      assert m.p.work[i] in m.p.work;
      SubsetCount(ColouredBefore(st, m, i), Neighbours(m.pieces, m.p.work[i]));
    }
  }

  /** More options than neighbours that are physical or no lighter. */
  lemma FewHeavier(st: Setting, m: Moment, weight: Reg -> real)
    requires ByWeight(weight, m.p.work)
    requires forall r :: r in m.p.work ==>
      |set q | q in Neighbours(m.pieces, r) && (Physical(st.max, q) || weight(q) >= weight(r))| < |Options(st, r)|
    ensures Spacious(st, m)
  {
    forall i | 0 <= i < |m.p.work| ensures |ColouredBefore(st, m, i)| < |Options(st, m.p.work[i])| {
      var r := m.p.work[i];
      assert r in m.p.work;
      var heavier := set q | q in Neighbours(m.pieces, r) && (Physical(st.max, q) || weight(q) >= weight(r));
      forall q | q in ColouredBefore(st, m, i) ensures q in heavier {
        if !Physical(st.max, q) {
          var j :| 0 <= j < i && m.p.work[j] == q;
        }
      }
      SubsetCount(ColouredBefore(st, m, i), heavier);
    }
  }

  /** After i turns without a spill: the first i registers have colours. */
  ghost predicate Easy(m0: Moment, i: int, m: Moment) {
    && 0 <= i <= |m0.p.work| && m.pieces == m0.pieces && m.p.work == m0.p.work[i..]
    && forall r :: r in m.subs <==> r in m0.p.work[..i]
  }

  lemma {:induction false} ImageCount(e: set<Reg>, subs: map<Reg, Reg>)
    ensures |set q | q in e :: Color(subs, q)| <= |e|
    decreases |e|
  {
    var image := set q | q in e :: Color(subs, q);
    if e != {} {
      var q :| q in e;
      var rest := set p | p in e - {q} :: Color(subs, p);
      ImageCount(e - {q}, subs);
      assert image == rest + {Color(subs, q)};
    }
  }

  /** Then the next register is not stuck. */
  lemma EasyFree(st: Setting, m0: Moment, i: nat, m: Moment)
    requires st.groups == [] && Spacious(st, m0) && Easy(m0, i, m) && i < |m0.p.work|
    ensures m.p.work != [] && m.p.work[0] == m0.p.work[i] && !HeadStuck(st, m)
  {
    var r := m.p.work[0];
    var e := ColouredBefore(st, m0, i);
    var taken := Taken(st.max, Neighbours(m.pieces, r), m.subs);
    assert taken == set q | q in e :: Color(m.subs, q);
    ImageCount(e, m.subs);
    if Options(st, r) <= taken { SubsetCount(Options(st, r), taken); }
  }

  lemma EasyTurn(st: Setting, m0: Moment, i: nat, a: Moment, b: Moment)
    requires st.groups == [] && Spacious(st, m0) && Easy(m0, i, a) && Turn(st, a, b)
    requires NoRepeats(m0.p.work) && forall r :: r in m0.p.work ==> HasPiece(m0.pieces, r)
    ensures Easy(m0, i + 1, b)
  {
    EasyFree(st, m0, i, a);
    var r := a.p.work[0];
    assert r in m0.p.work && r !in m0.p.work[..i];
    assert m0.p.work[..i + 1] == m0.p.work[..i] + [r];
    hide HeadStuck, HasPiece, Spacious, Options, Taken, Neighbours, GroupOf, SpillsFor, GroupAt;
    OnlyColours(st, a, b);
  }

  /** A register without a colour that has pieces, no group and a free option gets one. */
  lemma OnlyColours(st: Setting, a: Moment, b: Moment)
    requires st.groups == [] && a.p.work != [] && a.p.work[0] !in a.subs && HasPiece(a.pieces, a.p.work[0]) && !HeadStuck(st, a) && Turn(st, a, b)
    ensures b.p == Next(a.p) && b.pieces == a.pieces && forall r :: r in b.subs <==> r in a.subs || r == a.p.work[0]
  {
    hide HeadStuck, HasPiece, Options, Taken, Neighbours, SpillsFor, GroupAt;
    assert GroupOf(st.groups, a.p.work[0], |st.groups|) == -1;
  }

  /** With enough registers the steps that come are as many as the registers, and nothing is spilled. */
  lemma {:induction false} EasyTrace(st: Setting, trace: seq<Moment>)
    requires st.groups == [] && Trace(st, trace) && Spacious(st, trace[0]) && trace[0].subs == map[]
    requires NoRepeats(trace[0].p.work) && forall r :: r in trace[0].p.work ==> HasPiece(trace[0].pieces, r)
    ensures Easy(trace[0], |trace| - 1, trace[|trace| - 1])
    decreases |trace|
  {
    if |trace| > 1 {
      var front := trace[..|trace| - 1];
      assert Trace(st, front);
      EasyTrace(st, front);
      hide Turn, Spacious, Easy;
      EasyTurn(st, trace[0], |trace| - 2, trace[|trace| - 2], trace[|trace| - 1]);
    }
  }

  /** No groups, sound clobbers, enough registers, and as many steps as there are registers. */
  ghost predicate Plenty(st: Setting, src: seq<Source>, steps: nat) {
    st.groups == [] && ClobbersSound(st, src) && forall m :: Started(st, src, m) ==> Spacious(st, m) && |m.p.work| <= steps
  }

  /** Then the loop neither runs out of steps nor refuses. */
  lemma PlentySucceeds(st: Setting, src: seq<Source>, steps: nat, trace: seq<Moment>, why: Ending)
    requires Plenty(st, src, steps) && Trace(st, trace) && Started(st, src, trace[0])
    ensures var m := trace[|trace| - 1]; !Refuses(st, m, why) && !(|trace| == steps + 1 && m.p.work != [])
  {
    var m0, m, i := trace[0], trace[|trace| - 1], |trace| - 1;
    forall r | r in m0.p.work ensures HasPiece(m0.pieces, r) { HasRegs(m0.pieces, r); }
    hide Started, Trace, Plenty;
    assert Spacious(st, m0) && |m0.p.work| <= steps && st.groups == [] by { PlentyParts(st, src, steps, m0); }
    assert NoRepeats(m0.p.work) && m0.subs == map[] by { StartedParts(st, src, m0); }
    EasyTrace(st, trace);
    if i < |m0.p.work| { EasyFree(st, m0, i, m); }
  }

  lemma PlentyParts(st: Setting, src: seq<Source>, steps: nat, m: Moment)
    requires Plenty(st, src, steps) && Started(st, src, m)
    ensures Spacious(st, m) && |m.p.work| <= steps && st.groups == []
  {
  }

  lemma StartedParts(st: Setting, src: seq<Source>, m: Moment)
    requires Started(st, src, m)
    ensures NoRepeats(m.p.work) && m.subs == map[]
  {
  }
}
