/** Live ranges of a register in a block, and what it means that two of them overlap. */
module LiveRanges {
  import opened Liveness
  import opened Operations

  /** From begin up to, not including, end. A range whose end is its beginning stands for one that
      ends right after it, before every later position.
   */
  datatype Range = Range(begin: real, end: real) {
    predicate Covers(t: real) { begin <= t && Past(t) }

    /** The end is past t. */
    predicate Past(t: real) { t < end || t <= begin }
  }

  predicate RangesOverlap(a: Range, b: Range) { a.Past(b.begin) && b.Past(a.begin) }

  /** Ranges overlap exactly when they share a position. */
  lemma OverlapMeansShared(a: Range, b: Range)
    requires a.begin <= a.end && b.begin <= b.end
    ensures RangesOverlap(a, b) <==> exists t :: a.Covers(t) && b.Covers(t)
  {
    if RangesOverlap(a, b) {
      var t := if a.begin >= b.begin then a.begin else b.begin;
      assert a.Covers(t) && b.Covers(t);
    }
  }

  ghost predicate Covered(rs: seq<Range>, t: real) { exists i :: 0 <= i < |rs| && rs[i].Covers(t) }

  // ----- what a range should cover

  /** Instructions are in the order of their positions, after the beginning of the block. */
  ghost predicate Increasing(c: code, after: real) {
    c == [] || (after < c[0].pos && Increasing(c[1..], c[0].pos))
  }

  /** The register must be kept at position t: it is live there, or written there. The end of a
      block from which it is live out is stop.
   */
  ghost predicate Needed(c: code, r: Reg, end: bool, stop: real, t: real) {
    if c == [] then end && t < stop
    else if t < c[0].pos then Wanted(c, r, end)
    else (t == c[0].pos && c[0].op.Writes(r)) || Needed(c[1..], r, end, stop, t)
  }

  lemma NeededCons(p: Placed, c: code, r: Reg, end: bool, stop: real, t: real)
    ensures Needed([p] + c, r, end, stop, t) <==>
      if t < p.pos then Wanted([p] + c, r, end) else (t == p.pos && p.op.Writes(r)) || Needed(c, r, end, stop, t)
  {
    assert ([p] + c)[1..] == c;
  }

  function LastPos(c: code): real
    requires c != []
  {
    c[|c| - 1].pos
  }

  /** The register does not outlive an instruction that only clobbers it. */
  predicate ClobbersDead(c: code, r: Reg, end: bool) {
    c == [] ||
    ((r in c[0].op.Clobbers() && r !in c[0].op.Outs() ==> !Wanted(c[1..], r, end)) && ClobbersDead(c[1..], r, end))
  }

  lemma {:induction false} ClobbersDeadAt(c: code, k: nat, r: Reg, end: bool)
    requires k < |c| && ClobbersDead(c, r, end)
    ensures r in c[k].op.Clobbers() && r !in c[k].op.Outs() ==> !Wanted(c[k + 1..], r, end)
  {
    if k > 0 {
      ClobbersDeadAt(c[1..], k - 1, r, end);
      assert c[1..][k..] == c[k + 1..];
    }
  }

  lemma CoveredAppend(rs: seq<Range>, a: Range, t: real)
    ensures Covered(rs + [a], t) <==> Covered(rs, t) || a.Covers(t)
  {
    if Covered(rs, t) {
      var i :| 0 <= i < |rs| && rs[i].Covers(t);
      assert (rs + [a])[i].Covers(t);
    }
    if a.Covers(t) { assert (rs + [a])[|rs|].Covers(t); }
  }

  /** The state of the backward scan: what the tail of the block needs is covered by the finished
      ranges, or by the one that is open up to end.
   */
  ghost predicate Scanned(c: code, r: Reg, out: bool, stop: real, rs: seq<Range>, open: bool, end: real) {
    && (open <==> Wanted(c, r, out))
    && (open ==> end <= stop && if c == [] then end == stop else c[0].pos <= end)
    && (forall i :: 0 <= i < |rs| ==> rs[i].begin <= rs[i].end && c != [] && c[0].pos <= rs[i].begin)
    && forall t {:trigger Covered(rs, t)} :: Needed(c, r, out, stop, t) <==> Covered(rs, t) || (open && t < end)
  }

  /** One instruction of the scan. */
  lemma ScanStep(p: Placed, c: code, r: Reg, out: bool, stop: real, rs: seq<Range>, open: bool, end: real,
                 rs': seq<Range>, open': bool, end': real)
    requires Scanned(c, r, out, stop, rs, open, end) && p.pos < stop && (c != [] ==> p.pos < c[0].pos)
    requires r in p.op.Clobbers() && r !in p.op.Outs() ==> !open
    requires rs' == if p.op.Writes(r) then rs + [Range(p.pos, if open then end else p.pos)] else rs
    requires var left := open && !p.op.Writes(r);
             open' == (left || r in p.op.Ins()) && (open' ==> end' == if left then end else p.pos)
    ensures Scanned([p] + c, r, out, stop, rs', open', end')
  {
    WantedCons(p, c, r, out);
    forall t {:trigger Covered(rs', t)} | true
      ensures Needed([p] + c, r, out, stop, t) <==> Covered(rs', t) || (open' && t < end')
    {
      NeededCons(p, c, r, out, stop, t);
      if rs' != rs { CoveredAppend(rs, rs'[|rs|], t); }
      if t <= p.pos { assert !Covered(rs, t); }
      assert Needed(c, r, out, stop, t) <==> Covered(rs, t) || (open && t < end);
    }
  }

  lemma {:induction false} IncreasingAt(c: code, after: real, k: nat)
    requires Increasing(c, after) && k < |c|
    ensures after < c[k].pos && (k + 1 < |c| ==> c[k].pos < c[k + 1].pos) && c[k].pos <= LastPos(c)
  {
    if k > 0 { IncreasingAt(c[1..], c[0].pos, k - 1); } else if |c| > 1 { IncreasingAt(c[1..], c[0].pos, 0); }
  }

  /** The ranges of a register found so far on the way back, and up to where the next one reaches. */
  datatype Scan = Scan(ranges: seq<Range>, open: bool, end: real)

  function ScanNext(p: Placed, r: Reg, s: Scan): Scan {
    var made := s.open && r in p.op.Outs();
    var left := s.open && !made;
    Scan(if made then s.ranges + [Range(p.pos, s.end)] else if p.op.Writes(r) then s.ranges + [Range(p.pos, p.pos)] else s.ranges,
         left || r in p.op.Ins(), if r in p.op.Ins() && !left then p.pos else s.end)
  }

  function ScanOf(c: code, r: Reg, out: bool, stop: real): Scan {
    if c == [] then Scan([], out, stop) else ScanNext(c[0], r, ScanOf(c[1..], r, out, stop))
  }

  /** The ranges of a register in a block; what is still wanted at its beginning reaches back to 0. */
  function RangesOf(c: code, r: Reg, out: bool): seq<Range>
    requires c != []
  {
    var s := ScanOf(c, r, out, LastPos(c) + 1.0);
    if s.open then s.ranges + [Range(0.0, s.end)] else s.ranges
  }

  lemma {:induction false} NoScan(c: code, r: Reg, stop: real)
    requires forall k :: 0 <= k < |c| ==> !c[k].op.Mentions(r)
    ensures ScanOf(c, r, false, stop) == Scan([], false, stop)
    ensures ClobbersDead(c, r, false)
  {
    if c != [] {
      assert !c[0].op.Mentions(r);
      forall k | 0 <= k < |c[1..]| ensures !c[1..][k].op.Mentions(r) { assert c[1..][k] == c[k + 1]; }
      NoScan(c[1..], r, stop);
    }
  }

  /** A register that neither occurs nor is live out has no ranges. */
  lemma NoRanges(c: code, r: Reg)
    requires c != [] && forall k :: 0 <= k < |c| ==> !c[k].op.Mentions(r)
    ensures RangesOf(c, r, false) == [] && ClobbersDead(c, r, false)
  {
    NoScan(c, r, LastPos(c) + 1.0);
  }

  /** Walks a block backwards and records the ranges of one register. */
  method FillLiveRanges(c: code, out: bool, r: Reg) returns (rs: seq<Range>)
    requires c != [] && Increasing(c, 0.0) && ClobbersDead(c, r, out)
    ensures forall i :: 0 <= i < |rs| ==> rs[i].begin <= rs[i].end
    ensures forall t {:trigger Covered(rs, t)} :: 0.0 <= t ==> (Covered(rs, t) <==> Needed(c, r, out, LastPos(c) + 1.0, t))
    ensures rs == RangesOf(c, r, out)
  {
    rs := [];
    var haveLive := out;
    var livePos := LastPos(c) + 1.0;
    var k := |c|;
    while k > 0
      invariant 0 <= k <= |c| && Scanned(c[k..], r, out, LastPos(c) + 1.0, rs, haveLive, livePos)
      invariant Scan(rs, haveLive, livePos) == ScanOf(c[k..], r, out, LastPos(c) + 1.0)
    {
      k := k - 1;
      ghost var rs0, open0, end0 := rs, haveLive, livePos;
      hide Scanned, ClobbersDead, Increasing, Wanted, Covered, Needed, ScanOf;
      var p := c[k];
      if r in p.op.Outs() && haveLive {
        rs := rs + [Range(p.pos, livePos)];
        haveLive := false;
      } else if p.op.Writes(r) {
        rs := rs + [Range(p.pos, p.pos)];
      }
      if r in p.op.Ins() && !haveLive {
        haveLive, livePos := true, p.pos;
      }
      IncreasingAt(c, 0.0, k);
      ClobbersDeadAt(c, k, r, out);
      OpenMeansWanted(c[k + 1..], r, out, LastPos(c) + 1.0, rs0, open0, end0);
      ScanStep(p, c[k + 1..], r, out, LastPos(c) + 1.0, rs0, open0, end0, rs, haveLive, livePos);
      assert c[k..] == [c[k]] + c[k + 1..];
      ScanCons(p, c[k + 1..], r, out, LastPos(c) + 1.0);
    }
    assert c[0..] == c;
    ghost var scanned := rs;
    if haveLive {
      rs := rs + [Range(0.0, livePos)];
    }
    IncreasingAt(c, 0.0, 0);
    ScanEnd(c, r, out, LastPos(c) + 1.0, scanned, haveLive, livePos, rs);
  }

  lemma ScanCons(p: Placed, c: code, r: Reg, out: bool, stop: real)
    ensures ScanOf([p] + c, r, out, stop) == ScanNext(p, r, ScanOf(c, r, out, stop))
  {
    assert ([p] + c)[1..] == c;
  }

  lemma OpenMeansWanted(c: code, r: Reg, out: bool, stop: real, rs: seq<Range>, open: bool, end: real)
    requires Scanned(c, r, out, stop, rs, open, end)
    ensures open <==> Wanted(c, r, out)
  {
  }

  lemma ScanEnd(c: code, r: Reg, out: bool, stop: real, rs: seq<Range>, open: bool, end: real, rs': seq<Range>)
    requires c != [] && c[0].pos > 0.0 && Scanned(c, r, out, stop, rs, open, end)
    requires rs' == if open then rs + [Range(0.0, end)] else rs
    ensures forall i :: 0 <= i < |rs'| ==> rs'[i].begin <= rs'[i].end
    ensures forall t {:trigger Covered(rs', t)} :: 0.0 <= t ==> (Covered(rs', t) <==> Needed(c, r, out, stop, t))
  {
    forall t {:trigger Covered(rs', t)} | 0.0 <= t ensures Covered(rs', t) <==> Needed(c, r, out, stop, t) {
      if open { CoveredAppend(rs, Range(0.0, end), t); }
      assert Needed(c, r, out, stop, t) <==> Covered(rs, t) || (open && t < end);
    }
  }

  /** A register that is needed somewhere is live out or occurs in the code. */
  lemma {:induction false} WantedOccurs(c: code, r: Reg, end: bool)
    requires Wanted(c, r, end)
    ensures end || exists k :: 0 <= k < |c| && c[k].op.Mentions(r)
  {
    if c != [] && !c[0].op.Mentions(r) {
      WantedOccurs(c[1..], r, end);
      if k :| 0 <= k < |c[1..]| && c[1..][k].op.Mentions(r) { assert c[k + 1].op.Mentions(r); }
    }
  }

  lemma {:induction false} NeededOccurs(c: code, r: Reg, end: bool, stop: real, t: real)
    requires Needed(c, r, end, stop, t)
    ensures end || exists k :: 0 <= k < |c| && c[k].op.Mentions(r)
  {
    if c != [] {
      if t < c[0].pos {
        WantedOccurs(c, r, end);
      } else if !c[0].op.Mentions(r) {
        NeededOccurs(c[1..], r, end, stop, t);
        if k :| 0 <= k < |c[1..]| && c[1..][k].op.Mentions(r) { assert c[k + 1].op.Mentions(r); }
      }
    }
  }

  /** An earlier end of the block needs less. */
  lemma {:induction false} NeededSooner(c: code, r: Reg, end: bool, stop: real, later: real, t: real)
    requires Needed(c, r, end, stop, t) && stop <= later
    ensures Needed(c, r, end, later, t)
  {
    if c != [] && t >= c[0].pos && !(t == c[0].pos && c[0].op.Writes(r)) {
      NeededSooner(c[1..], r, end, stop, later, t);
    }
  }
}
