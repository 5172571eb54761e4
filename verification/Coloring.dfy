/** The interference graph of live ranges, and the allocation steps that colour it. */
module Coloring {
  import opened Integers
  import opened Liveness
  import opened Operations
  import opened LiveRanges
  import opened ColoredRun

  /** One range of a register in a block. */
  datatype Piece = Piece(block: int, reg: Reg, range: Range)

  predicate Conflict(p: Piece, q: Piece) {
    p.block == q.block && p.reg != q.reg && p.reg.space == q.reg.space && RangesOverlap(p.range, q.range)
  }

  ghost predicate Interferes(pieces: set<Piece>, a: Reg, b: Reg) {
    exists p, q :: p in pieces && q in pieces && p.reg == a && q.reg == b && Conflict(p, q)
  }

  ghost predicate HasPiece(pieces: set<Piece>, a: Reg) { exists p :: p in pieces && p.reg == a }

  /** The constraint sets are the interference graph of the pieces. */
  ghost predicate Exact(pieces: set<Piece>, constraints: map<Reg, set<Reg>>) {
    && (forall a :: a in constraints <==> HasPiece(pieces, a))
    && forall a, b :: a in constraints && b in constraints[a] <==> Interferes(pieces, a, b)
  }

  lemma InterferesSymmetric(pieces: set<Piece>, a: Reg, b: Reg)
    requires Interferes(pieces, a, b)
    ensures Interferes(pieces, b, a) && a != b && a.space == b.space && HasPiece(pieces, a) && HasPiece(pieces, b)
  {
    var p, q :| p in pieces && q in pieces && p.reg == a && q.reg == b && Conflict(p, q);
    assert Conflict(q, p);
  }

  /** Adding a piece adds exactly the pairs it conflicts with. */
  lemma InterferesAdd(pieces: set<Piece>, p: Piece, a: Reg, b: Reg)
    ensures Interferes(pieces + {p}, a, b) <==>
      Interferes(pieces, a, b)
      || (a == p.reg && exists q :: q in pieces && q.reg == b && Conflict(p, q))
      || (b == p.reg && exists q :: q in pieces && q.reg == a && Conflict(p, q))
  {
    if q :| q in pieces && q.reg == a && Conflict(p, q) { assert Conflict(q, p); }
    if Interferes(pieces + {p}, a, b) {
      var x, y :| x in pieces + {p} && y in pieces + {p} && x.reg == a && y.reg == b && Conflict(x, y);
      assert Conflict(y, x);
    }
  }

  function Without(pieces: set<Piece>, r: Reg): set<Piece> { set p | p in pieces && p.reg != r }

  lemma InterferesWithout(pieces: set<Piece>, r: Reg, a: Reg, b: Reg)
    ensures Interferes(Without(pieces, r), a, b) <==> Interferes(pieces, a, b) && a != r && b != r
  {
  }

  // ----- colours

  predicate Physical(max: int, r: Reg) { r.id <= max }

  predicate IsColored(max: int, subs: map<Reg, Reg>, r: Reg) { r in subs || Physical(max, r) }

  function Color(subs: map<Reg, Reg>, r: Reg): Reg { if r in subs then subs[r] else r }

  ghost predicate SubsOk(max: int, subs: map<Reg, Reg>) {
    forall a :: a in subs ==> !Physical(max, a) && Physical(max, subs[a]) && subs[a].space == a.space
  }

  /** No two interfering registers share a colour. */
  ghost predicate Proper(max: int, pieces: set<Piece>, subs: map<Reg, Reg>) {
    forall a, b :: Interferes(pieces, a, b) && IsColored(max, subs, a) && IsColored(max, subs, b) ==> Color(subs, a) != Color(subs, b)
  }

  /** The physical registers that the neighbours of a register occupy. */
  function Taken(max: int, neighbours: set<Reg>, subs: map<Reg, Reg>): set<Reg> {
    set r | r in neighbours && IsColored(max, subs, r) :: Color(subs, r)
  }

  lemma ProperAssign(max: int, pieces: set<Piece>, constraints: map<Reg, set<Reg>>, subs: map<Reg, Reg>, from: Reg, to: Reg)
    requires Exact(pieces, constraints) && Proper(max, pieces, subs) && from !in subs && !Physical(max, from)
    requires from in constraints ==> to !in Taken(max, constraints[from], subs)
    ensures Proper(max, pieces, subs[from := to])
  {
    var new_ := subs[from := to];
    forall a, b | Interferes(pieces, a, b) && IsColored(max, new_, a) && IsColored(max, new_, b)
      ensures Color(new_, a) != Color(new_, b)
    {
      InterferesSymmetric(pieces, a, b);
      if a == from {
        assert b in constraints[from];
        assert Color(subs, b) in Taken(max, constraints[from], subs);
      } else if b == from {
        assert a in constraints[from];
        assert Color(subs, a) in Taken(max, constraints[from], subs);
      }
    }
  }

  /** Physical registers are their own colours. */
  lemma NothingColored(max: int, pieces: set<Piece>)
    ensures SubsOk(max, map[]) && Proper(max, pieces, map[])
  {
    forall a, b | Interferes(pieces, a, b) ensures Color(map[], a) != Color(map[], b) {
      InterferesSymmetric(pieces, a, b);
    }
  }

  class Allocator {
    const max: int
    var pieces: set<Piece>
    var constraints: map<Reg, set<Reg>>
    var subs: map<Reg, Reg>

    ghost predicate Valid()
      reads this
    {
      Exact(pieces, constraints) && SubsOk(max, subs) && Proper(max, pieces, subs)
    }

    /** Builds the graph by looking at all pairs. */
    constructor (max: int, ps: set<Piece>)
      ensures Valid() && pieces == ps && subs == map[] && this.max == max
    {
      this.max := max;
      pieces := {};
      constraints := map[];
      subs := map[];
      new;
      var todo := ps;
      while todo != {}
        invariant pieces + todo == ps && Exact(pieces, constraints) && subs == map[]
        decreases |todo|
      {
        var p :| p in todo;
        todo := todo - {p};
        InsertInterval(p);
      }
      NothingColored(max, pieces);
    }

    /** Records a range and the conflicts it brings. */
    method InsertInterval(p: Piece)
      requires Exact(pieces, constraints)
      modifies this`pieces, this`constraints
      ensures Exact(pieces, constraints) && pieces == old(pieces) + {p}
    {
      var hits := set q | q in pieces && Conflict(p, q) :: q.reg;
      InsertExact(pieces, constraints, p, hits);
      var mine := if p.reg in constraints then constraints[p.reg] else {};
      constraints := (map r | r in constraints :: if r in hits then constraints[r] + {p.reg} else constraints[r])
                     [p.reg := mine + hits];
      pieces := pieces + {p};
    }

    method EraseReg(r: Reg)
      requires Exact(pieces, constraints)
      modifies this`pieces, this`constraints
      ensures Exact(pieces, constraints) && pieces == Without(old(pieces), r)
    {
      EraseExact(pieces, constraints, r);
      pieces := set p | p in pieces && p.reg != r;
      constraints := map q | q in constraints && q != r :: constraints[q] - {r};
    }

    /** Gives the register any choice that no neighbour occupies. */
    method Assign(from: Reg, choices: set<Reg>) returns (done: bool)
      requires Valid() && !Physical(max, from) && from !in subs
      requires forall c :: c in choices ==> Physical(max, c) && c.space == from.space
      modifies this`subs
      ensures Valid()
      ensures done ==> from in subs && subs[from] in choices && subs == old(subs)[from := subs[from]]
      ensures done ==> from in constraints && subs[from] !in Taken(max, constraints[from], old(subs))
      ensures !done ==> subs == old(subs)
      ensures !done && from in constraints ==> choices <= Taken(max, constraints[from], subs)
    {
      done := false;
      if from !in constraints { return; }
      var free := choices - Taken(max, constraints[from], subs);
      if free != {} {
        var to :| to in free;
        ProperAssign(max, pieces, constraints, subs, from, to);
        subs := subs[from := to];
        done := true;
      } else {
        forall c | c in choices ensures c in Taken(max, constraints[from], subs) {
          assert c !in free;
        }
      }
    }

    /** Gives a sequence of registers consecutive places in the list of available ones, going round
        at its end. Nothing checks that the list is long enough, so members at the same place must
        not interfere.
     */
    method AssignGroup(group: seq<Reg>, available: seq<Reg>, choices: map<Reg, set<Reg>>) returns (placed: bool)
      requires Valid() && available != [] && NoRepeats(group) && NoRepeats(available)
      requires forall i :: 0 <= i < |available| ==> Physical(max, available[i])
      requires forall i, j :: 0 <= i < |group| && 0 <= j < |available| ==> group[i].space == available[j].space
      modifies this`subs
      ensures Valid() <==> !placed || Roomy(pieces, group, |available|)
      ensures Exact(pieces, constraints) && SubsOk(max, subs)
      ensures !placed ==> subs == old(subs)
      ensures !placed ==> forall base: nat :: base < |available| ==> !FitsAll(max, constraints, subs, choices, group, available, base)
      ensures placed ==> exists base :: 0 <= base < |available| && GroupAt(group, available, subs, base)
      ensures placed ==> forall i :: 0 <= i < |group| ==> IsColored(max, subs, group[i])
      ensures forall r :: r in old(subs) ==> r in subs && subs[r] == old(subs)[r]
      ensures forall r :: r in subs ==> r in old(subs) || (r in group && subs[r] in available && (r in choices ==> subs[r] in choices[r]))
    {
      placed := false;
      for base := 0 to |available|
        invariant subs == old(subs) && !placed
        invariant forall b: nat :: b < base ==> !FitsAll(max, constraints, subs, choices, group, available, b)
      {
        var ok := true;
        for offset := 0 to |group|
          invariant ok ==> forall o: nat :: o < offset ==> FitsAt(max, constraints, subs, choices, group, available, base, o)
        {
          if !Fits(max, constraints, subs, choices, group[offset], Place(available, base, offset)) {
            ok := false;
            assert !FitsAt(max, constraints, subs, choices, group, available, base, offset);
            break;
          }
        }
        if ok {
          PlaceGroup(group, available, choices, base);
          placed := true;
          return;
        }
      }
    }

    method PlaceGroup(group: seq<Reg>, available: seq<Reg>, choices: map<Reg, set<Reg>>, base: nat)
      requires Valid() && available != [] && NoRepeats(group) && NoRepeats(available)
      requires forall i :: 0 <= i < |available| ==> Physical(max, available[i])
      requires forall i, j :: 0 <= i < |group| && 0 <= j < |available| ==> group[i].space == available[j].space
      requires forall o: nat :: o < |group| ==> FitsAt(max, constraints, subs, choices, group, available, base, o)
      modifies this`subs
      ensures Valid() <==> Roomy(pieces, group, |available|)
      ensures Exact(pieces, constraints) && SubsOk(max, subs) && GroupAt(group, available, subs, base)
      ensures forall i :: 0 <= i < |group| ==> IsColored(max, subs, group[i])
      ensures forall r :: r in old(subs) ==> r in subs && subs[r] == old(subs)[r]
      ensures forall r :: r in subs ==> r in old(subs) || (r in group && subs[r] in available && (r in choices ==> subs[r] in choices[r]))
    {
      hide Exact, Proper, Taken, FitsAt, Roomy, Extended, IsColored, Place, SubsOk, GroupAt;
      ghost var before := subs;
      ExtendedNone(max, before, group, available, base);
      for offset := 0 to |group|
        invariant SubsOk(max, subs) && Extended(max, before, subs, group, available, base, offset)
      {
        var r, candidate := group[offset], Place(available, base, offset);
        OneMorePlaced(max, constraints, choices, before, subs, group, available, base, offset);
        if !IsColored(max, subs, r) {
          subs := subs[r := candidate];
        }
      }
      GroupProper(max, pieces, constraints, choices, before, subs, group, available, base);
      GroupChosen(max, constraints, choices, before, subs, group, available, base);
      ExtendedAll(max, before, subs, group, available, base);
    }

    /** Replaces the ranges of a register by those of the code that spills it, and forgets its colour. */
    method Spill(r: Reg, more: set<Piece>)
      requires Valid() && !Physical(max, r)
      requires forall p :: p in more ==> !Physical(max, p.reg) && (p.reg == r || p.reg !in subs)
      modifies this
      ensures Valid() && subs == old(subs) - {r}
      ensures pieces == Without(old(pieces), r) + more
    {
      EraseReg(r);
      ghost var kept := pieces;
      var todo := more;
      while todo != {}
        invariant todo <= more && Exact(pieces, constraints) && subs == old(subs) && pieces == kept + (more - todo)
        decreases |todo|
      {
        var p :| p in todo;
        OneLessToDo(kept, more, todo, p);
        todo := todo - {p};
        hide Exact;
        InsertInterval(p);
      }
      assert more - {} == more;
      SpillProper(max, old(pieces), old(subs), r, more);
      subs := subs - {r};
    }
  }

  lemma OneLessToDo<T>(kept: set<T>, all: set<T>, todo: set<T>, p: T)
    requires p in todo && todo <= all
    ensures kept + (all - todo) + {p} == kept + (all - (todo - {p}))
  {
  }

  // ----- groups

  /** Place o of a group that begins at base. */
  function Place(available: seq<Reg>, base: nat, o: nat): (r: Reg)
    requires available != []
    ensures r in available
  {
    available[(base + o) % |available|]
  }

  predicate NoRepeats(rs: seq<Reg>) { forall i, j :: 0 <= i < j < |rs| ==> rs[i] != rs[j] }

  /** The candidate is the register's own colour, or an allowed one no neighbour occupies. */
  predicate Fits(max: int, constraints: map<Reg, set<Reg>>, subs: map<Reg, Reg>, choices: map<Reg, set<Reg>>, r: Reg, candidate: Reg) {
    if IsColored(max, subs, r) then Color(subs, r) == candidate
    else
      && (r in choices ==> candidate in choices[r])
      && (r in constraints ==> candidate !in Taken(max, constraints[r], subs))
  }

  predicate FitsAt(max: int, constraints: map<Reg, set<Reg>>, subs: map<Reg, Reg>, choices: map<Reg, set<Reg>>,
                   group: seq<Reg>, available: seq<Reg>, base: nat, o: nat)
    requires o < |group| && available != []
  {
    Fits(max, constraints, subs, choices, group[o], Place(available, base, o))
  }

  /** The whole group fits at consecutive places from base on. */
  ghost predicate FitsAll(max: int, constraints: map<Reg, set<Reg>>, subs: map<Reg, Reg>, choices: map<Reg, set<Reg>>,
                          group: seq<Reg>, available: seq<Reg>, base: nat)
    requires available != []
  {
    forall o: nat :: o < |group| ==> FitsAt(max, constraints, subs, choices, group, available, base, o)
  }

  /** The group occupies consecutive places of the list from base on. */
  ghost predicate GroupAt(group: seq<Reg>, available: seq<Reg>, subs: map<Reg, Reg>, base: nat) {
    available != [] &&
    forall o: nat :: o < |group| ==> Color(subs, group[o]) == Place(available, base, o)
  }

  predicate Together(i: int, j: int, n: nat) { n > 0 && (j - i) % n == 0 }

  /** Members that come to the same one of n places do not interfere. */
  ghost predicate Roomy(pieces: set<Piece>, group: seq<Reg>, n: nat) {
    forall i, j :: 0 <= i < j < |group| && Interferes(pieces, group[i], group[j]) ==> !Together(i, j, n)
  }

  /** There is room for a group that is no longer than the list. */
  lemma ShortGroupRoomy(pieces: set<Piece>, group: seq<Reg>, n: nat)
    requires |group| <= n
    ensures Roomy(pieces, group, n)
  {
    forall i, j | 0 <= i < j < |group| ensures !Together(i, j, n) {
      var d: nat := j - i;
      assert 0 < d < n;
      ModUnique(d, n, 0, d);
    }
  }

  /** subs colours the first members of the group, besides what before colours. */
  ghost predicate Extended(max: int, before: map<Reg, Reg>, subs: map<Reg, Reg>, group: seq<Reg>, available: seq<Reg>, base: nat, offset: int)
    requires available != []
  {
    && 0 <= offset <= |group|
    && (forall r :: r in before ==> r in subs && subs[r] == before[r])
    && (forall r :: r in subs && r !in before ==> exists o: nat :: o < offset && group[o] == r)
    && forall o: nat :: o < offset ==> IsColored(max, subs, group[o]) && Color(subs, group[o]) == Place(available, base, o)
  }

  lemma ExtendedNone(max: int, before: map<Reg, Reg>, group: seq<Reg>, available: seq<Reg>, base: nat)
    requires available != []
    ensures Extended(max, before, before, group, available, base, 0)
  {
  }

  lemma ExtendedAll(max: int, before: map<Reg, Reg>, subs: map<Reg, Reg>, group: seq<Reg>, available: seq<Reg>, base: nat)
    requires available != [] && Extended(max, before, subs, group, available, base, |group|)
    ensures GroupAt(group, available, subs, base) && (forall i :: 0 <= i < |group| ==> IsColored(max, subs, group[i]))
    ensures forall r :: r in before ==> r in subs && subs[r] == before[r]
  {
    hide Place;
  }

  lemma OneMorePlaced(max: int, constraints: map<Reg, set<Reg>>, choices: map<Reg, set<Reg>>, before: map<Reg, Reg>, subs: map<Reg, Reg>,
                      group: seq<Reg>, available: seq<Reg>, base: nat, offset: int)
    requires available != [] && NoRepeats(group) && 0 <= offset < |group|
    requires Extended(max, before, subs, group, available, base, offset)
    requires FitsAt(max, constraints, before, choices, group, available, base, offset) && SubsOk(max, subs)
    requires forall i :: 0 <= i < |available| ==> Physical(max, available[i]) && available[i].space == group[offset].space
    ensures var r, candidate := group[offset], Place(available, base, offset);
      var after := if IsColored(max, subs, r) then subs else subs[r := candidate];
      Extended(max, before, after, group, available, base, offset + 1) && SubsOk(max, after)
  {
    var r := group[offset];
    hide Place, Taken;
  }

  lemma SamePlace(base: nat, i: nat, j: nat, n: pos)
    requires i < j
    ensures (base + i) % n == (base + j) % n <==> (j - i) % n == 0
  {
    var d: nat := j - i;
    ModSplit(base + i, n);
    ModSplit(d, n);
    if d % n == 0 {
      ModShift(base + i, n, d / n);
    } else if (base + i) % n == (base + j) % n {
      var q := (base + j) / n - (base + i) / n;
      ModSplit(base + j, n);
      assert d == n * q;
      ModUnique(d, n, q, 0);
    }
  }

  lemma SameElement(available: seq<Reg>, base: nat, i: nat, j: nat)
    requires available != [] && NoRepeats(available) && i < j
    ensures Place(available, base, i) == Place(available, base, j) <==> Together(i, j, |available|)
  {
    SamePlace(base, i, j, |available|);
    var a, b := (base + i) % |available|, (base + j) % |available|;
    assert a < b || b < a || a == b;
  }

  /** After placing a group that fits, the colouring is proper exactly if there is room for the group. */
  lemma GroupProper(max: int, pieces: set<Piece>, constraints: map<Reg, set<Reg>>, choices: map<Reg, set<Reg>>, before: map<Reg, Reg>,
                    subs: map<Reg, Reg>, group: seq<Reg>, available: seq<Reg>, base: nat)
    requires Exact(pieces, constraints) && Proper(max, pieces, before) && SubsOk(max, subs)
    requires available != [] && NoRepeats(available) && Extended(max, before, subs, group, available, base, |group|)
    requires forall o: nat :: o < |group| ==> FitsAt(max, constraints, before, choices, group, available, base, o)
    ensures Proper(max, pieces, subs) <==> Roomy(pieces, group, |available|)
  {
    if Roomy(pieces, group, |available|) {
      forall a, b | Interferes(pieces, a, b) && IsColored(max, subs, a) && IsColored(max, subs, b) ensures Color(subs, a) != Color(subs, b) {
        InterferesSymmetric(pieces, a, b);
        hide Exact, Taken, Place, Together, Fits, Interferes;
        if IsColored(max, before, b) {
          NeighboursDiffer(max, pieces, constraints, choices, before, subs, group, available, base, a, b);
        } else if IsColored(max, before, a) {
          NeighboursDiffer(max, pieces, constraints, choices, before, subs, group, available, base, b, a);
        } else {
          MembersDiffer(max, pieces, before, subs, group, available, base, a, b);
        }
      }
    }
    if Proper(max, pieces, subs) {
      hide Exact, Taken, Place, Together, Fits, Interferes;
      forall i, j | 0 <= i < j < |group| && Interferes(pieces, group[i], group[j]) ensures !Together(i, j, |available|) {
        SameElement(available, base, i, j);
      }
    }
  }

  lemma MembersDiffer(max: int, pieces: set<Piece>, before: map<Reg, Reg>, subs: map<Reg, Reg>, group: seq<Reg>, available: seq<Reg>,
                      base: nat, a: Reg, b: Reg)
    requires available != [] && NoRepeats(available) && Extended(max, before, subs, group, available, base, |group|)
    requires Roomy(pieces, group, |available|) && Interferes(pieces, a, b) && Interferes(pieces, b, a) && a != b
    requires IsColored(max, subs, a) && IsColored(max, subs, b) && !IsColored(max, before, a) && !IsColored(max, before, b)
    ensures Color(subs, a) != Color(subs, b)
  {
    var i: nat :| i < |group| && group[i] == a;
    var j: nat :| j < |group| && group[j] == b;
    hide Place, Together, Interferes;
    if i < j { SameElement(available, base, i, j); } else { SameElement(available, base, j, i); }
  }

  /** Members get allowed places of the list. */
  lemma GroupChosen(max: int, constraints: map<Reg, set<Reg>>, choices: map<Reg, set<Reg>>, before: map<Reg, Reg>,
                    subs: map<Reg, Reg>, group: seq<Reg>, available: seq<Reg>, base: nat)
    requires available != [] && Extended(max, before, subs, group, available, base, |group|) && SubsOk(max, subs)
    requires forall o: nat :: o < |group| ==> FitsAt(max, constraints, before, choices, group, available, base, o)
    ensures forall r :: r in subs ==> r in before || (r in group && subs[r] in available && (r in choices ==> subs[r] in choices[r]))
  {
    hide Place, Taken;
    forall r | r in subs && r !in before
      ensures r in group && subs[r] in available && (r in choices ==> subs[r] in choices[r])
    {
      var o: nat :| o < |group| && group[o] == r;
      assert FitsAt(max, constraints, before, choices, group, available, base, o);
    }
  }

  /** A register coloured before differs from every neighbour. */
  lemma NeighboursDiffer(max: int, pieces: set<Piece>, constraints: map<Reg, set<Reg>>, choices: map<Reg, set<Reg>>, before: map<Reg, Reg>,
                         subs: map<Reg, Reg>, group: seq<Reg>, available: seq<Reg>, base: nat, a: Reg, b: Reg)
    requires Exact(pieces, constraints) && Proper(max, pieces, before) && Interferes(pieces, a, b)
    requires available != [] && Extended(max, before, subs, group, available, base, |group|)
    requires forall o: nat :: o < |group| ==> FitsAt(max, constraints, before, choices, group, available, base, o)
    requires IsColored(max, subs, a) && IsColored(max, before, b) && SubsOk(max, subs)
    ensures Color(subs, a) != Color(subs, b)
  {
    hide Place;
    if !IsColored(max, before, a) {
      var i: nat :| i < |group| && group[i] == a;
      assert FitsAt(max, constraints, before, choices, group, available, base, i);
      assert b in constraints[a];
      assert Color(before, b) in Taken(max, constraints[a], before);
    }
  }

  lemma InsertExact(pieces: set<Piece>, constraints: map<Reg, set<Reg>>, p: Piece, hits: set<Reg>)
    requires Exact(pieces, constraints) && hits == set q | q in pieces && Conflict(p, q) :: q.reg
    ensures var mine := if p.reg in constraints then constraints[p.reg] else {};
      Exact(pieces + {p}, (map r | r in constraints :: if r in hits then constraints[r] + {p.reg} else constraints[r])[p.reg := mine + hits])
  {
    var mine := if p.reg in constraints then constraints[p.reg] else {};
    assert p.reg !in hits;
    var after := (map r | r in constraints :: if r in hits then constraints[r] + {p.reg} else constraints[r])[p.reg := mine + hits];
    forall a ensures a in after <==> HasPiece(pieces + {p}, a) {
      assert p in pieces + {p};
    }
    forall a, b ensures a in after && b in after[a] <==> Interferes(pieces + {p}, a, b) {
      InterferesAdd(pieces, p, a, b);
      assert b in hits <==> exists q :: q in pieces && q.reg == b && Conflict(p, q);
      assert a in hits <==> exists q :: q in pieces && q.reg == a && Conflict(p, q);
      if Interferes(pieces, a, b) { InterferesSymmetric(pieces, a, b); }
      hide Interferes, Conflict;
      assert a in constraints && b in constraints[a] <==> Interferes(pieces, a, b);
      if a == p.reg {
        assert b in mine <==> Interferes(pieces, a, b);
        assert b in after[a] <==> b in mine || b in hits;
        assert p.reg !in hits;
      } else if a in constraints {
        assert b in after[a] <==> b in constraints[a] || (a in hits && b == p.reg);
      }
    }
  }

  lemma EraseExact(pieces: set<Piece>, constraints: map<Reg, set<Reg>>, r: Reg)
    requires Exact(pieces, constraints)
    ensures Exact(Without(pieces, r), map q | q in constraints && q != r :: constraints[q] - {r})
  {
    var after := map q | q in constraints && q != r :: constraints[q] - {r};
    forall a, b ensures a in after && b in after[a] <==> Interferes(Without(pieces, r), a, b) {
      InterferesWithout(pieces, r, a, b);
    }
  }

  /** Fresh registers are not coloured, so new conflicts cannot break the colouring. */
  lemma SpillProper(max: int, pieces: set<Piece>, subs: map<Reg, Reg>, r: Reg, more: set<Piece>)
    requires Proper(max, pieces, subs) && !Physical(max, r)
    requires forall p :: p in more ==> !Physical(max, p.reg) && (p.reg == r || p.reg !in subs)
    ensures Proper(max, Without(pieces, r) + more, subs - {r})
  {
    var after, less := Without(pieces, r) + more, subs - {r};
    forall a, b | Interferes(after, a, b) && IsColored(max, less, a) && IsColored(max, less, b)
      ensures Color(less, a) != Color(less, b)
    {
      var p, q :| p in after && q in after && p.reg == a && q.reg == b && Conflict(p, q);
      assert p in pieces && q in pieces;
      assert Interferes(pieces, a, b) && a != r && b != r;
      assert Color(less, a) == Color(subs, a) && Color(less, b) == Color(subs, b);
    }
  }

  // ----- the coloured program

  function ColorFn(subs: map<Reg, Reg>): Reg -> Reg { r => Color(subs, r) }

  ghost predicate PieceCovers(pieces: set<Piece>, b: int, r: Reg, t: real) {
    exists p :: p in pieces && p.block == b && p.reg == r && p.range.Covers(t)
  }

  /** Blocks are not empty, in order, and end with an instruction that writes no register. */
  ghost predicate Laid(c: code) { c != [] && Increasing(c, 0.0) && c[|c| - 1].op.Quiet() }

  /** Wherever an ordinary register is needed before the end of the block, a piece of it covers the position. */
  ghost predicate CoversBlock(x: Special, b: int, c: code, out: set<Reg>, pieces: set<Piece>)
    requires c != []
  {
    forall r, t :: 0.0 <= t && Ordinary(x, r) && Needed(c, r, r in out, LastPos(c), t) ==> PieceCovers(pieces, b, r, t)
  }

  ghost predicate CoversNeeds(x: Special, bodies: seq<Body>, outs: seq<set<Reg>>, pieces: set<Piece>) {
    && |outs| == |bodies|
    && forall b :: 0 <= b < |bodies| ==> Laid(bodies[b].code) && CoversBlock(x, b, bodies[b].code, outs[b], pieces)
  }

  /** Ranges do not end before they begin. */
  ghost predicate Forward(pieces: set<Piece>) { forall p :: p in pieces ==> p.range.begin <= p.range.end }

  /** Colours are no special registers, and every register with a range has one. */
  ghost predicate Complete(max: int, x: Special, pieces: set<Piece>, subs: map<Reg, Reg>) {
    && (forall r :: r in subs ==> Ordinary(x, r) && Ordinary(x, subs[r]))
    && forall p :: p in pieces ==> IsColored(max, subs, p.reg)
  }

  ghost predicate ClobbersPhysical(max: int, c: code) {
    forall k, r :: 0 <= k < |c| && r in c[k].op.Clobbers() ==> Physical(max, r)
  }

  lemma NeededDiffer(max: int, x: Special, pieces: set<Piece>, subs: map<Reg, Reg>, b: int, r: Reg, q: Reg, t: real)
    requires Forward(pieces) && Complete(max, x, pieces, subs) && SubsOk(max, subs) && Proper(max, pieces, subs)
    requires PieceCovers(pieces, b, r, t) && PieceCovers(pieces, b, q, t) && r != q
    ensures Color(subs, r) != Color(subs, q)
  {
    var p :| p in pieces && p.block == b && p.reg == r && p.range.Covers(t);
    var o :| o in pieces && o.block == b && o.reg == q && o.range.Covers(t);
    if r.space == q.space {
      OverlapMeansShared(p.range, o.range);
      assert Conflict(p, o);
      assert Interferes(pieces, r, q);
    }
  }

  /** What is needed in the tail of a block is needed in the block. */
  lemma {:induction false} NeededInTail(c: code, after: real, k: nat, r: Reg, end: bool, stop: real, t: real)
    requires k < |c| && Increasing(c, after) && c[k].pos <= t && Needed(c[k..], r, end, stop, t)
    ensures Needed(c, r, end, stop, t)
  {
    if k > 0 {
      assert c[1..][k - 1..] == c[k..];
      NeededInTail(c[1..], c[0].pos, k - 1, r, end, stop, t);
      IncreasingAt(c[1..], c[0].pos, k - 1);
    } else {
      assert c[0..] == c;
    }
  }

  /** A register that is written, or wanted after the instruction, is needed there. */
  lemma NeededHere(c: code, after: real, k: nat, r: Reg, end: bool)
    requires k + 1 < |c| && Increasing(c, after) && (c[k].op.Writes(r) || Wanted(c[k + 1..], r, end))
    ensures Needed(c, r, end, LastPos(c), c[k].pos)
  {
    IncreasingAt(c, after, k);
    assert c[k..][1..] == c[k + 1..];
    NeededInTail(c, after, k, r, end, LastPos(c), c[k].pos);
  }

  lemma {:induction false} TailProper(max: int, x: Special, b: int, c: code, out: set<Reg>, pieces: set<Piece>, subs: map<Reg, Reg>, k: nat)
    requires k <= |c| && Laid(c) && CoversBlock(x, b, c, out, pieces) && ClobbersPhysical(max, c)
    requires Forward(pieces) && Complete(max, x, pieces, subs) && SubsOk(max, subs) && Proper(max, pieces, subs)
    ensures ProperCode(x, c[k..], out, ColorFn(subs))
    decreases |c| - k
  {
    if k < |c| {
      TailProper(max, x, b, c, out, pieces, subs, k + 1);
      assert c[k..][1..] == c[k + 1..] && c[k..][0] == c[k];
      var op, rest, f := c[k].op, c[k + 1..], ColorFn(subs);
      IncreasingAt(c, 0.0, k);
      hide Increasing, Needed, Wanted, Proper, Complete, Forward;
      forall d, r {:trigger op.Writes(d), f(r)}
        | op.Writes(d) && (r in op.Outs() || Wanted(rest, r, r in out)) && Ordinary(x, d) && Ordinary(x, r) && d != r
        ensures f(d) != f(r)
      {
        assert k + 1 < |c|;
        NeededHere(c, 0.0, k, r, r in out);
        NeededHere(c, 0.0, k, d, d in out);
        NeededDiffer(max, x, pieces, subs, b, d, r, c[k].pos);
      }
    }
  }

  /** A complete proper colouring of pieces that cover what is needed allocates the function. */
  lemma ColoringAllocates(max: int, x: Special, bodies: seq<Body>, outs: seq<set<Reg>>, pieces: set<Piece>, subs: map<Reg, Reg>)
    requires CoversNeeds(x, bodies, outs, pieces) && forall b :: 0 <= b < |bodies| ==> ClobbersPhysical(max, bodies[b].code)
    requires Forward(pieces) && Complete(max, x, pieces, subs) && SubsOk(max, subs) && Proper(max, pieces, subs)
    ensures Allocated(x, bodies, outs, ColorFn(subs))
  {
    forall b | 0 <= b < |bodies| ensures ProperCode(x, bodies[b].code, outs[b], ColorFn(subs)) {
      var c := bodies[b].code;
      hide Proper, Complete, Forward, CoversBlock;
      TailProper(max, x, b, c, outs[b], pieces, subs, 0);
      assert c[0..] == c;
    }
  }
}
