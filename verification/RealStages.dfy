/** The twiddled stage of a real transform: three kinds of kernel calls that together write the
    half spectrum.
 */
module RealStages {
  import opened Integers
  import opened Algebra
  import opened Roots
  import opened Transform
  import opened Memory
  import opened Twiddle
  import opened Plans
  import opened Execution
  import opened RealSpectrum
  import opened RealKernels

  /** Columns and outputs of a stage. */
  type places = set<(int, int)>

  /** Outputs below lim of columns lo..hi. */
  function Block(lo: int, hi: int, lim: int): (s: places)
    ensures forall h, k :: (h, k) in s <==> lo <= h < hi && 0 <= k < lim
  {
    set h, k | lo <= h < hi && 0 <= k < lim :: (h, k)
  }

  /** What the conjugate-reverse calls on columns lo..hi write. */
  function Pairs(n: int, m: int, lo: int, hi: int): (s: places)
    ensures forall h, k :: (h, k) in s <==> 0 <= k && ((lo <= h < hi && k < (n + 1) / 2) || (lo <= m - h < hi && k < n / 2))
  {
    Block(lo, hi, (n + 1) / 2) + Block(m - hi + 1, m - lo + 1, n / 2)
  }

  function Half(n: int, m: int): (s: places)
    ensures forall h, k :: (h, k) in s <==> InHalf(n, m, h, k)
  {
    set h, k | 0 <= h < m && 0 <= k < n && InHalf(n, m, h, k) :: (h, k)
  }

  function StageColumns<T>(u: Roots<T>, p: TwidProblem, xs: seq<T>, xo: int, b: int): int -> int -> T {
    h => Column(u, xs, p.In(xo, b), h)
  }

  function Wanted<T>(u: Roots<T>, p: TwidProblem, xs: seq<T>, xo: int, b: int, h: int, k: int): T
    requires p.n >= 0
  {
    HalfOutput(u, p.n, p.howmany0, p.dir, StageColumns(u, p, xs, xo, b), h, k)
  }

  /** The elements at places s of every inner copy are as wanted. */
  ghost predicate PlacesSolved<T(!new)>(u: Roots<T>, p: TwidProblem, s: places, xs: seq<T>, xo: int, after: seq<T>, yo: int)
    requires p.n >= 0
  {
    forall b, h, k {:trigger p.Out(yo, b).At(h, k)} ::
      0 <= b < p.howmany1 && (h, k) in s && 0 <= p.Out(yo, b).At(h, k) < |after| ==>
        after[p.Out(yo, b).At(h, k)] == Wanted(u, p, xs, xo, b, h, k)
  }

  ghost predicate TouchesPlace(p: TwidProblem, s: places, yo: int, a: int) {
    exists b, h, k {:trigger p.Out(yo, b).At(h, k)} :: 0 <= b < p.howmany1 && (h, k) in s && p.Out(yo, b).At(h, k) == a
  }

  ghost predicate PlacesTouched<T(!new)>(p: TwidProblem, s: places, before: seq<T>, after: seq<T>, yo: int) {
    && |after| == |before|
    && forall a :: 0 <= a < |before| && !TouchesPlace(p, s, yo, a) ==> after[a] == before[a]
  }

  /** The half spectra of all inner copies are within y and apart from each other. */
  ghost predicate HalfRoom(p: TwidProblem, xo: int, xlen: int, yo: int, ylen: int) {
    && p.n > 1 && p.howmany0 > 0 && p.howmany1 > 0
    && (forall b, h, j {:trigger p.In(xo, b).At(h, j)} :: 0 <= b < p.howmany1 && 0 <= 2 * h <= p.howmany0 && 0 <= j < p.n ==>
          0 <= p.In(xo, b).At(h, j) < xlen)
    && (forall b, h, k {:trigger p.Out(yo, b).At(h, k)} :: 0 <= b < p.howmany1 && (h, k) in Half(p.n, p.howmany0) ==>
          0 <= p.Out(yo, b).At(h, k) < ylen)
    && HalfSeparate(p, yo)
  }

  ghost predicate HalfSeparate(p: TwidProblem, yo: int) {
    forall b, h, k, b', h', k' {:trigger p.Out(yo, b).At(h, k), p.Out(yo, b').At(h', k')} ::
      (0 <= b < p.howmany1 && 0 <= b' < p.howmany1 && (h, k) in Half(p.n, p.howmany0) && (h', k') in Half(p.n, p.howmany0)
       && p.Out(yo, b).At(h, k) == p.Out(yo, b').At(h', k')) ==> b == b' && h == h' && k == k'
  }

  /** More places are done. */
  lemma AddPlaces<T(!new)>(u: Roots<T>, p: TwidProblem, s: places, t: places, xs: seq<T>, xo: int,
                           before: seq<T>, mid: seq<T>, after: seq<T>, yo: int)
    requires p.n >= 0 && HalfSeparate(p, yo) && s !! t && s <= Half(p.n, p.howmany0) && t <= Half(p.n, p.howmany0)
    requires PlacesSolved(u, p, s, xs, xo, mid, yo) && PlacesTouched(p, s, before, mid, yo)
    requires PlacesSolved(u, p, t, xs, xo, after, yo) && PlacesTouched(p, t, mid, after, yo)
    ensures PlacesSolved(u, p, s + t, xs, xo, after, yo) && PlacesTouched(p, s + t, before, after, yo)
  {
    hide Layout.At, Wanted, Half;
    forall b, h, k {:trigger p.Out(yo, b).At(h, k)}
      | 0 <= b < p.howmany1 && (h, k) in s + t && 0 <= p.Out(yo, b).At(h, k) < |after|
      ensures after[p.Out(yo, b).At(h, k)] == Wanted(u, p, xs, xo, b, h, k)
    {
      if (h, k) !in t {
        assert !TouchesPlace(p, t, yo, p.Out(yo, b).At(h, k));
      }
    }
    forall a | TouchesPlace(p, s, yo, a) || TouchesPlace(p, t, yo, a) ensures TouchesPlace(p, s + t, yo, a) {}
  }

  // ----- kernel calls

  /** The inner copy and the column of batch member g of a call. Calls take either columns from
      lo on of the only copy, or column lo of every copy.
   */
  function Copy(columns: bool, g: int): int { if columns then 0 else g }

  function Col0(columns: bool, lo: int, g: int): int { if columns then lo + g else lo }

  function Upper(columns: bool, lo: int, hs: int): int { if columns then lo + hs else lo + 1 }

  ghost predicate CallShape(p: TwidProblem, columns: bool, lo: int, hs: int) {
    && 0 <= lo && 0 <= hs && (if columns then p.howmany1 == 1 else hs == p.howmany1)
    && 2 * (Upper(columns, lo, hs) - 1) <= p.howmany0
  }

  ghost predicate Reads(p: TwidProblem, columns: bool, lo: int, hs: int, xl: Layout, xo: int) {
    forall g, j {:trigger xl.At(g, j)} :: 0 <= g < hs ==> xl.At(g, j) == p.In(xo, Copy(columns, g)).At(Col0(columns, lo, g), j)
  }

  ghost predicate Writes(p: TwidProblem, columns: bool, lo: int, hs: int, yl: Layout, yo: int) {
    forall g, k {:trigger yl.At(g, k)} :: 0 <= g < hs ==> yl.At(g, k) == p.Out(yo, Copy(columns, g)).At(Col0(columns, lo, g), k)
  }

  ghost predicate WritesMirrored(p: TwidProblem, columns: bool, lo: int, hs: int, yyl: Layout, yo: int) {
    forall g, k {:trigger yyl.At(g, k)} :: 0 <= g < hs ==>
      yyl.At(g, k) == p.Out(yo, Copy(columns, g)).At(p.howmany0 - Col0(columns, lo, g), p.n / 2 - 1 - k)
  }

  ghost predicate RowsFor<T>(u: Roots<T>, p: TwidProblem, columns: bool, lo: int, hs: int, tw: int -> int -> T) {
    forall g, j {:trigger tw(g)(j)} :: 0 <= g < hs && 0 <= j < p.n ==>
      tw(g)(j) == Twiddles(u, p.n * p.howmany0, p.dir, Col0(columns, lo, g))(j)
  }

  lemma ReadRoom(p: TwidProblem, columns: bool, lo: int, hs: int, xl: Layout, xo: int, xlen: int, yo: int, ylen: int)
    requires HalfRoom(p, xo, xlen, yo, ylen) && CallShape(p, columns, lo, hs) && Reads(p, columns, lo, hs, xl, xo)
    ensures Within(xl, hs, p.n, xlen)
  {
    hide Layout.At, Half, HalfSeparate;
  }

  lemma WriteRoom(p: TwidProblem, columns: bool, lo: int, hs: int, lim: int, xo: int, xlen: int, yl: Layout, yo: int, ylen: int)
    requires HalfRoom(p, xo, xlen, yo, ylen) && CallShape(p, columns, lo, hs) && Writes(p, columns, lo, hs, yl, yo)
    requires Block(lo, Upper(columns, lo, hs), lim) <= Half(p.n, p.howmany0)
    ensures Within(yl, hs, lim, ylen) && Separate(yl, hs, lim)
  {
    hide Layout.At, Half, Block;
    forall g, k {:trigger yl.At(g, k)} | 0 <= g < hs && 0 <= k < lim
      ensures (Col0(columns, lo, g), k) in Half(p.n, p.howmany0) && 0 <= yl.At(g, k) < ylen
    {
      assert (Col0(columns, lo, g), k) in Block(lo, Upper(columns, lo, hs), lim);
    }
  }

  /** The twiddled column a call reads gives the wanted outputs. */
  lemma CallValue<T(!new)>(u: Roots<T>, p: TwidProblem, columns: bool, lo: int, hs: int, xs: seq<T>, xl: Layout, xo: int,
                           tw: int -> int -> T, g: int, k: int)
    requires p.n > 0 && CallShape(p, columns, lo, hs) && Reads(p, columns, lo, hs, xl, xo) && RowsFor(u, p, columns, lo, hs, tw)
    requires 0 <= g < hs
    ensures var b, h := Copy(columns, g), Col0(columns, lo, g);
      && KernelValue(u, p.n, p.dir, Column(u, xs, xl, g), tw(g), k) == Wanted(u, p, xs, xo, b, h, k)
      && (2 * h < p.howmany0 ==> u.conj(KernelValue(u, p.n, p.dir, Column(u, xs, xl, g), tw(g), k)) ==
                                 Wanted(u, p, xs, xo, b, p.howmany0 - h, p.n - 1 - k))
  {
    hide Layout.At;
    var b, h := Copy(columns, g), Col0(columns, lo, g);
    KernelExt(u, p.n, p.dir, Column(u, xs, xl, g), Column(u, xs, p.In(xo, b), h), tw(g),
      Twiddles(u, p.n * p.howmany0, p.dir, h), k);
    hide KernelValue, Twiddles;
    assert StageColumns(u, p, xs, xo, b)(h) == Column(u, xs, p.In(xo, b), h);
    assert p.howmany0 - (p.howmany0 - h) == h && p.n - 1 - (p.n - 1 - k) == k;
  }

  /** A call that writes the outputs below lim of its columns. */
  lemma UptoCall<T(!new)>(u: Roots<T>, p: TwidProblem, columns: bool, lo: int, hs: int, lim: int, xs: seq<T>, xl: Layout, xo: int,
                          before: seq<T>, after: seq<T>, yl: Layout, yo: int, tw: int -> int -> T)
    requires p.n > 0 && CallShape(p, columns, lo, hs)
    requires Reads(p, columns, lo, hs, xl, xo) && Writes(p, columns, lo, hs, yl, yo) && RowsFor(u, p, columns, lo, hs, tw)
    requires KerneledUpto(u, p.n, lim, p.dir, xs, xl, after, yl, hs, tw) && OnlyTouched(yl, hs, lim, before, after)
    ensures var s := Block(lo, Upper(columns, lo, hs), lim);
      PlacesSolved(u, p, s, xs, xo, after, yo) && PlacesTouched(p, s, before, after, yo)
  {
    hide Layout.At, KernelValue, Wanted, Block;
    var s := Block(lo, Upper(columns, lo, hs), lim);
    forall b, h, k {:trigger p.Out(yo, b).At(h, k)}
      | 0 <= b < p.howmany1 && (h, k) in s && 0 <= p.Out(yo, b).At(h, k) < |after|
      ensures after[p.Out(yo, b).At(h, k)] == Wanted(u, p, xs, xo, b, h, k)
    {
      var g := if columns then h - lo else b;
      assert yl.At(g, k) == p.Out(yo, b).At(h, k);
      CallValue(u, p, columns, lo, hs, xs, xl, xo, tw, g, k);
    }
    forall a | Touches(yl, hs, lim, a) ensures TouchesPlace(p, s, yo, a) {
      var g, k :| 0 <= g < hs && 0 <= k < lim && yl.At(g, k) == a;
      assert (Col0(columns, lo, g), k) in s;
      assert p.Out(yo, Copy(columns, g)).At(Col0(columns, lo, g), k) == a;
    }
  }

  /** The part of a conjugate-reverse call behind the second pointer. */
  lemma TailSolved<T(!new)>(u: Roots<T>, p: TwidProblem, columns: bool, lo: int, hs: int, xs: seq<T>, xl: Layout, xo: int,
                            after: seq<T>, yyl: Layout, yo: int, tw: int -> int -> T)
    requires p.n > 0 && CallShape(p, columns, lo, hs) && 2 * (Upper(columns, lo, hs) - 1) < p.howmany0
    requires Reads(p, columns, lo, hs, xl, xo) && WritesMirrored(p, columns, lo, hs, yyl, yo) && RowsFor(u, p, columns, lo, hs, tw)
    requires KerneledConj(u, p.n, (p.n + 1) / 2, p.dir, xs, xl, after, yyl, hs, tw)
    ensures var m := p.howmany0;
      PlacesSolved(u, p, Block(m - Upper(columns, lo, hs) + 1, m - lo + 1, p.n / 2), xs, xo, after, yo)
  {
    hide Layout.At, KernelValue, Wanted, Block;
    var m, lim := p.howmany0, (p.n + 1) / 2;
    var s := Block(m - Upper(columns, lo, hs) + 1, m - lo + 1, p.n / 2);
    forall b, h, k {:trigger p.Out(yo, b).At(h, k)}
      | 0 <= b < p.howmany1 && (h, k) in s && 0 <= p.Out(yo, b).At(h, k) < |after|
      ensures after[p.Out(yo, b).At(h, k)] == Wanted(u, p, xs, xo, b, h, k)
    {
      var g, t := if columns then m - h - lo else b, p.n / 2 - 1 - k;
      assert Copy(columns, g) == b && Col0(columns, lo, g) == m - h && lim + t == p.n - 1 - k;
      assert yyl.At(g, t) == p.Out(yo, b).At(m - (m - h), p.n / 2 - 1 - t);
      assert m - (m - h) == h && p.n / 2 - 1 - t == k;
      CallValue(u, p, columns, lo, hs, xs, xl, xo, tw, g, lim + t);
      assert p.n - 1 - (lim + t) == k;
    }
  }

  lemma PairsTouched<T(!new)>(p: TwidProblem, columns: bool, lo: int, hs: int, before: seq<T>, after: seq<T>,
                              yl: Layout, yyl: Layout, yo: int)
    requires p.n > 0 && CallShape(p, columns, lo, hs)
    requires Writes(p, columns, lo, hs, yl, yo) && WritesMirrored(p, columns, lo, hs, yyl, yo)
    requires BothTouched(yl, (p.n + 1) / 2, yyl, p.n / 2, hs, before, after)
    ensures PlacesTouched(p, Pairs(p.n, p.howmany0, lo, Upper(columns, lo, hs)), before, after, yo)
  {
    hide Layout.At, Pairs;
    var s := Pairs(p.n, p.howmany0, lo, Upper(columns, lo, hs));
    forall a | Touches(yl, hs, (p.n + 1) / 2, a) ensures TouchesPlace(p, s, yo, a) {
      var g, k :| 0 <= g < hs && 0 <= k < (p.n + 1) / 2 && yl.At(g, k) == a;
      assert (Col0(columns, lo, g), k) in s;
      assert p.Out(yo, Copy(columns, g)).At(Col0(columns, lo, g), k) == a;
    }
    forall a | Touches(yyl, hs, p.n / 2, a) ensures TouchesPlace(p, s, yo, a) {
      var g, k :| 0 <= g < hs && 0 <= k < p.n / 2 && yyl.At(g, k) == a;
      assert (p.howmany0 - Col0(columns, lo, g), p.n / 2 - 1 - k) in s;
      assert p.Out(yo, Copy(columns, g)).At(p.howmany0 - Col0(columns, lo, g), p.n / 2 - 1 - k) == a;
    }
  }

  /** A conjugate-reverse call. */
  lemma PairsCall<T(!new)>(u: Roots<T>, p: TwidProblem, columns: bool, lo: int, hs: int, xs: seq<T>, xl: Layout, xo: int,
                           before: seq<T>, after: seq<T>, yl: Layout, yyl: Layout, yo: int, tw: int -> int -> T)
    requires p.n > 0 && CallShape(p, columns, lo, hs) && 2 * (Upper(columns, lo, hs) - 1) < p.howmany0
    requires Reads(p, columns, lo, hs, xl, xo) && Writes(p, columns, lo, hs, yl, yo) && WritesMirrored(p, columns, lo, hs, yyl, yo)
    requires RowsFor(u, p, columns, lo, hs, tw)
    requires KerneledUpto(u, p.n, (p.n + 1) / 2, p.dir, xs, xl, after, yl, hs, tw)
    requires KerneledConj(u, p.n, (p.n + 1) / 2, p.dir, xs, xl, after, yyl, hs, tw)
    requires BothTouched(yl, (p.n + 1) / 2, yyl, p.n / 2, hs, before, after)
    ensures var s := Pairs(p.n, p.howmany0, lo, Upper(columns, lo, hs));
      PlacesSolved(u, p, s, xs, xo, after, yo) && PlacesTouched(p, s, before, after, yo)
  {
    PairsTouched(p, columns, lo, hs, before, after, yl, yyl, yo);
    TailSolved(u, p, columns, lo, hs, xs, xl, xo, after, yyl, yo, tw);
    var lim := (p.n + 1) / 2;
    assert OnlyTouched(yl, hs, lim, after, after);
    UptoCall(u, p, columns, lo, hs, lim, xs, xl, xo, after, after, yl, yo, tw);
    hide Layout.At, Wanted, PlacesTouched;
  }

  lemma PairsRoom(p: TwidProblem, columns: bool, lo: int, hs: int, xo: int, xlen: int, yl: Layout, yyl: Layout, yo: int, ylen: int)
    requires HalfRoom(p, xo, xlen, yo, ylen) && CallShape(p, columns, lo, hs) && 2 * (Upper(columns, lo, hs) - 1) < p.howmany0
    requires 1 <= lo && Writes(p, columns, lo, hs, yl, yo) && WritesMirrored(p, columns, lo, hs, yyl, yo)
    requires Pairs(p.n, p.howmany0, lo, Upper(columns, lo, hs)) <= Half(p.n, p.howmany0)
    ensures Within(yl, hs, (p.n + 1) / 2, ylen) && Separate(yl, hs, (p.n + 1) / 2)
    ensures Within(yyl, hs, p.n / 2, ylen) && Separate(yyl, hs, p.n / 2)
    ensures Apart(yl, (p.n + 1) / 2, yyl, p.n / 2, hs)
  {
    hide Layout.At, Half, Pairs;
    var m, lim, s := p.howmany0, (p.n + 1) / 2, Pairs(p.n, p.howmany0, lo, Upper(columns, lo, hs));
    forall g, k {:trigger yl.At(g, k)} | 0 <= g < hs && 0 <= k < lim
      ensures (Col0(columns, lo, g), k) in Half(p.n, m) && 0 <= yl.At(g, k) < ylen
    {
      assert (Col0(columns, lo, g), k) in s;
    }
    forall g, k {:trigger yyl.At(g, k)} | 0 <= g < hs && 0 <= k < p.n / 2
      ensures (m - Col0(columns, lo, g), p.n / 2 - 1 - k) in Half(p.n, m) && 0 <= yyl.At(g, k) < ylen
    {
      assert (m - Col0(columns, lo, g), p.n / 2 - 1 - k) in s;
    }
  }

  // ----- the stages

  function HalfLow(m: int): int { (m + 1) / 2 }

  function Middle(n: int, m: int): places { if m % 2 == 0 then Block(HalfLow(m), HalfLow(m) + 1, (n + 1) / 2) else {} }

  /** The three kinds of calls write every place of the half spectrum exactly once. */
  lemma Tiles(n: pos, m: pos)
    requires n > 1
    ensures Block(0, 1, n / 2 + 1) + Pairs(n, m, 1, HalfLow(m)) + Middle(n, m) == Half(n, m)
    ensures Block(0, 1, n / 2 + 1) !! Pairs(n, m, 1, HalfLow(m))
    ensures (Block(0, 1, n / 2 + 1) + Pairs(n, m, 1, HalfLow(m))) !! Middle(n, m)
  {
    var all := Block(0, 1, n / 2 + 1) + Pairs(n, m, 1, HalfLow(m)) + Middle(n, m);
    forall h, k ensures (h, k) in all <==> (h, k) in Half(n, m) {
      if 0 <= h < m && 0 <= k < n { Tiling(n, m, h, k); }
    }
  }

  lemma OneMorePair(n: int, m: int, i: int)
    requires 1 <= i < HalfLow(m)
    ensures Pairs(n, m, 1, i) + Pairs(n, m, i, i + 1) == Pairs(n, m, 1, i + 1)
    ensures Pairs(n, m, 1, i) !! Pairs(n, m, i, i + 1)
  {
  }

  /** Second stages of real transforms: the last level has one table for the paired columns and one
      for the middle column.
   */
  datatype RealTwid<T> =
    | AbReal(tp: TwidProblem, pairsLayout: TableLayout, pairsTable: seq<T>, middleLayout: TableLayout, middleTable: seq<T>)
    | AcReal(tp: TwidProblem, layout: TableLayout, table: seq<T>)

  ghost predicate RealTwidSolves<T(!new)>(u: Roots<T>, t: RealTwid<T>) {
    && TwidSolvable(u, t.tp)
    && match t {
         case AbReal(p, l, table, l', table') =>
           p.howmany1 == 1 && !l.unityRow && TableHolds(u, p, l, table) && !l'.unityRow && TableHolds(u, p, l', table')
         case AcReal(p, l, table) =>
           l.interleave == 1 && !l.unityRow && TableHolds(u, p, l, table)
       }
  }

  /** The half spectrum of every inner copy is as wanted, and nothing else changed. */
  ghost predicate HalfDone<T(!new)>(u: Roots<T>, p: TwidProblem, xs: seq<T>, xo: int, before: seq<T>, after: seq<T>, yo: int)
    requires p.n >= 0
  {
    PlacesSolved(u, p, Half(p.n, p.howmany0), xs, xo, after, yo) && PlacesTouched(p, Half(p.n, p.howmany0), before, after, yo)
  }

  /** What a call reads of a table given from position base on: the row there. */
  function RowAt<T>(u: Roots<T>, table: seq<T>, base: int, l: TableLayout, n: int): int -> T {
    j => if j == 0 then u.ring.one else Get(u.ring.zero, table, base + l.Slot(n, 0, j))
  }

  /** Where one row begins, inside its block. */
  function RowBase(l: TableLayout, n: int, row: int): int {
    l.slots * (row / l.interleave * l.interleave * (n - 1) + row % l.interleave)
  }

  lemma RowAtHolds<T(!new)>(u: Roots<T>, p: TwidProblem, l: TableLayout, table: seq<T>, row: nat, j: int)
    requires IsRoots(u) && TwidSolvable(u, p) && TableHolds(u, p, l, table) && !l.unityRow
    requires row + 1 < p.howmany0 && 0 <= j < p.n
    ensures RowAt(u, table, RowBase(l, p.n, row), l, p.n)(j) == Twiddles(u, p.n * p.howmany0, p.dir, row + 1)(j)
  {
    hide TableHolds, IsRoots;
    RowBaseSlot(l, p.n, row, j);
    TableRowHolds(u, p, l, table, row + 1, j);
    hide *;
  }

  lemma RowBaseSlot(l: TableLayout, n: int, row: nat, j: int)
    ensures RowBase(l, n, row) + l.Slot(n, 0, j) == l.Slot(n, row, j)
  {
    ModUnique(0, l.interleave, 0, 0);
    RowSlot(l.slots, l.interleave, n - 1, row / l.interleave, row % l.interleave, j - 1);
  }

  lemma RowSlot(slots: int, v: int, m: int, q: int, jj: int, i: int)
    ensures slots * (q * v * m + jj) + slots * ((0 * m + i) * v + 0) == slots * ((q * m + i) * v + jj)
  {
    assert (q * m + i) * v == (q * m) * v + i * v;
    assert q * v * m == (q * m) * v;
  }

  /** The first half of column 0 of every copy. */
  method FirstHalf<T(!new)>(u: Roots<T>, p: TwidProblem, x: array<T>, xo: int, y: array<T>, yo: int)
    requires IsRoots(u) && TwidSolvable(u, p) && x != y && HalfRoom(p, xo, x.Length, yo, y.Length)
    modifies y
    ensures PlacesSolved(u, p, Block(0, 1, p.n / 2 + 1), x[..], xo, y[..], yo)
    ensures PlacesTouched(p, Block(0, 1, p.n / 2 + 1), old(y[..]), y[..], yo)
  {
    ghost var before, xs := y[..], x[..];
    var hs := p.howmany1;
    var xl, yl := Layout(xo, 1, p.istride), Layout(yo, 1, p.ostride);
    var tw: int -> int -> T := _ => Const(u.ring.one);
    assert Reads(p, false, 0, hs, xl, xo) && Writes(p, false, 0, hs, yl, yo);
    Tiles(p.n, p.howmany0);
    ReadRoom(p, false, 0, hs, xl, xo, x.Length, yo, y.Length);
    WriteRoom(p, false, 0, hs, p.n / 2 + 1, xo, x.Length, yl, yo, y.Length);
    KernelUpto(u, p.n, p.n / 2 + 1, p.dir, x, xl, y, yl, hs, tw);
    assert RowsFor(u, p, false, 0, hs, tw) by {
      forall j ensures Twiddles(u, p.n * p.howmany0, p.dir, 0)(j) == u.ring.one {
        FirstColumnTwiddles(u, p.n * p.howmany0, p.dir, j);
      }
    }
    assert x[..] == xs;
    hide Layout.At, KernelValue, Block;
    UptoCall(u, p, false, 0, hs, p.n / 2 + 1, xs, xl, xo, before, y[..], yl, yo, tw);
  }

  /** The paired columns of a batch without inner copies. */
  method PairedColumns<T(!new)>(u: Roots<T>, t: RealTwid<T>, x: array<T>, xo: int, y: array<T>, yo: int)
    requires IsRoots(u) && t.AbReal? && RealTwidSolves(u, t) && x != y && HalfRoom(t.tp, xo, x.Length, yo, y.Length)
    requires HalfLow(t.tp.howmany0) > 1
    modifies y
    ensures var s := Pairs(t.tp.n, t.tp.howmany0, 1, HalfLow(t.tp.howmany0));
      PlacesSolved(u, t.tp, s, x[..], xo, y[..], yo) && PlacesTouched(t.tp, s, old(y[..]), y[..], yo)
  {
    ghost var before, xs := y[..], x[..];
    var p, l, table := t.tp, t.pairsLayout, t.pairsTable;
    var hs := HalfLow(p.howmany0) - 1;
    var yyoffset := (p.n / 2 - 1) * p.ostride + (p.howmany0 - 1) * p.odist0;
    var xl, yl := Layout(xo + p.idist0, p.idist0, p.istride), Layout(yo + p.odist0, p.odist0, p.ostride);
    var yyl := Layout(yo + yyoffset, -p.odist0, -p.ostride);
    var tw := row => TableRow(u, table, l, p.n, row);
    PairedAddresses(p, hs, xl, xo, yl, yyl, yo);
    Tiles(p.n, p.howmany0);
    ReadRoom(p, true, 1, hs, xl, xo, x.Length, yo, y.Length);
    PairsRoom(p, true, 1, hs, xo, x.Length, yl, yyl, yo, y.Length);
    KernelConjReverse(u, p.n, p.dir, x, xl, y, yl, yyl, hs, tw);
    forall g, j {:trigger tw(g)(j)} | 0 <= g < hs && 0 <= j < p.n ensures tw(g)(j) == Twiddles(u, p.n * p.howmany0, p.dir, 1 + g)(j) {
      TableRowHolds(u, p, l, table, g + 1, j);
    }
    assert x[..] == xs;
    hide Layout.At, KernelValue, Block, Pairs;
    PairsCall(u, p, true, 1, hs, xs, xl, xo, before, y[..], yl, yyl, yo, tw);
  }

  lemma PairedAddresses(p: TwidProblem, hs: int, xl: Layout, xo: int, yl: Layout, yyl: Layout, yo: int)
    requires xl == Layout(xo + p.idist0, p.idist0, p.istride) && yl == Layout(yo + p.odist0, p.odist0, p.ostride)
    requires yyl == Layout(yo + ((p.n / 2 - 1) * p.ostride + (p.howmany0 - 1) * p.odist0), -p.odist0, -p.ostride)
    ensures Reads(p, true, 1, hs, xl, xo) && Writes(p, true, 1, hs, yl, yo) && WritesMirrored(p, true, 1, hs, yyl, yo)
  {
    forall g, k {:trigger yyl.At(g, k)} ensures yyl.At(g, k) == p.Out(yo, 0).At(p.howmany0 - (1 + g), p.n / 2 - 1 - k) {
      assert (p.howmany0 - (1 + g)) * p.odist0 == (p.howmany0 - 1) * p.odist0 + g * -p.odist0;
      assert (p.n / 2 - 1 - k) * p.ostride == (p.n / 2 - 1) * p.ostride + k * -p.ostride;
    }
  }

  /** The middle column of every copy, read from the table at one row. */
  method MiddleHalf<T(!new)>(u: Roots<T>, p: TwidProblem, row: int -> T, x: array<T>, xo: int, y: array<T>, yo: int)
    requires IsRoots(u) && TwidSolvable(u, p) && x != y && HalfRoom(p, xo, x.Length, yo, y.Length) && p.howmany0 % 2 == 0
    requires forall j :: 0 <= j < p.n ==> row(j) == Twiddles(u, p.n * p.howmany0, p.dir, HalfLow(p.howmany0))(j)
    modifies y
    ensures PlacesSolved(u, p, Middle(p.n, p.howmany0), x[..], xo, y[..], yo)
    ensures PlacesTouched(p, Middle(p.n, p.howmany0), old(y[..]), y[..], yo)
  {
    ghost var before, xs := y[..], x[..];
    var hs, h, lim := p.howmany1, HalfLow(p.howmany0), (p.n + 1) / 2;
    var xl, yl := Layout(xo + h * p.idist0, 1, p.istride), Layout(yo + h * p.odist0, 1, p.ostride);
    var tw: int -> int -> T := _ => row;
    assert Reads(p, false, h, hs, xl, xo) && Writes(p, false, h, hs, yl, yo);
    Tiles(p.n, p.howmany0);
    ReadRoom(p, false, h, hs, xl, xo, x.Length, yo, y.Length);
    WriteRoom(p, false, h, hs, lim, xo, x.Length, yl, yo, y.Length);
    KernelUpto(u, p.n, lim, p.dir, x, xl, y, yl, hs, tw);
    assert RowsFor(u, p, false, h, hs, tw);
    assert x[..] == xs;
    hide Layout.At, KernelValue, Block;
    UptoCall(u, p, false, h, hs, lim, xs, xl, xo, before, y[..], yl, yo, tw);
  }

  /** Column i of every copy, and its mirror. */
  method PairedColumn<T(!new)>(u: Roots<T>, t: RealTwid<T>, i: int, x: array<T>, xo: int, y: array<T>, yo: int)
    requires IsRoots(u) && t.AcReal? && RealTwidSolves(u, t) && x != y && HalfRoom(t.tp, xo, x.Length, yo, y.Length)
    requires 1 <= i < HalfLow(t.tp.howmany0)
    modifies y
    ensures var s := Pairs(t.tp.n, t.tp.howmany0, i, i + 1);
      PlacesSolved(u, t.tp, s, x[..], xo, y[..], yo) && PlacesTouched(t.tp, s, old(y[..]), y[..], yo)
  {
    ghost var before, xs := y[..], x[..];
    var AcReal(p, l, table) := t;
    var hs := p.howmany1;
    var yyoffset := (p.n / 2 - 1) * p.ostride + p.howmany0 * p.odist0;
    var offsetw := (i - 1) * l.slots * (p.n - 1);
    var row := RowFrom(u, table, offsetw, l.slots);
    var xl, yl := Layout(xo + i * p.idist0, 1, p.istride), Layout(yo + i * p.odist0, 1, p.ostride);
    var yyl := Layout(yo + yyoffset - i * p.odist0, 1, -p.ostride);
    var tw: int -> int -> T := _ => row;
    CopyAddresses(p, i, hs, xl, xo, yl, yyl, yo);
    PairWithin(p.n, p.howmany0, i);
    ReadRoom(p, false, i, hs, xl, xo, x.Length, yo, y.Length);
    PairsRoom(p, false, i, hs, xo, x.Length, yl, yyl, yo, y.Length);
    KernelConjReverse(u, p.n, p.dir, x, xl, y, yl, yyl, hs, tw);
    forall j | 0 <= j < p.n ensures row(j) == Twiddles(u, p.n * p.howmany0, p.dir, i)(j) {
      RowFromHolds(u, p, l, table, i, j);
    }
    assert x[..] == xs;
    hide Layout.At, KernelValue, Block, Pairs;
    PairsCall(u, p, false, i, hs, xs, xl, xo, before, y[..], yl, yyl, yo, tw);
  }

  lemma PairWithin(n: pos, m: pos, i: int)
    requires n > 1 && 1 <= i < HalfLow(m)
    ensures Pairs(n, m, i, i + 1) <= Half(n, m)
  {
    Tiles(n, m);
    assert Pairs(n, m, i, i + 1) <= Pairs(n, m, 1, HalfLow(m));
  }

  lemma CopyAddresses(p: TwidProblem, i: int, hs: int, xl: Layout, xo: int, yl: Layout, yyl: Layout, yo: int)
    requires xl == Layout(xo + i * p.idist0, 1, p.istride) && yl == Layout(yo + i * p.odist0, 1, p.ostride)
    requires yyl == Layout(yo + ((p.n / 2 - 1) * p.ostride + p.howmany0 * p.odist0) - i * p.odist0, 1, -p.ostride)
    ensures Reads(p, false, i, hs, xl, xo) && Writes(p, false, i, hs, yl, yo) && WritesMirrored(p, false, i, hs, yyl, yo)
  {
    forall g, k {:trigger yyl.At(g, k)} ensures yyl.At(g, k) == p.Out(yo, g).At(p.howmany0 - i, p.n / 2 - 1 - k) {
      assert (p.howmany0 - i) * p.odist0 == p.howmany0 * p.odist0 - i * p.odist0;
      assert (p.n / 2 - 1 - k) * p.ostride == (p.n / 2 - 1) * p.ostride + k * -p.ostride;
    }
  }

  method ExecuteAbReal<T(!new)>(u: Roots<T>, t: RealTwid<T>, x: array<T>, xo: int, y: array<T>, yo: int)
    requires IsRoots(u) && t.AbReal? && RealTwidSolves(u, t) && x != y && HalfRoom(t.tp, xo, x.Length, yo, y.Length)
    modifies y
    ensures HalfDone(u, t.tp, x[..], xo, old(y[..]), y[..], yo)
  {
    var p := t.tp;
    ghost var before, xs := y[..], x[..];
    Tiles(p.n, p.howmany0);
    hide Layout.At, Half, Pairs, Block, Middle, IsRoots, PlacesSolved, PlacesTouched, HalfSeparate;
    ghost var done := Block(0, 1, p.n / 2 + 1);
    FirstHalf(u, p, x, xo, y, yo);
    var halflo := HalfLow(p.howmany0);
    if halflo > 1 {
      ghost var mid := y[..];
      PairedColumns(u, t, x, xo, y, yo);
      AddPlaces(u, p, done, Pairs(p.n, p.howmany0, 1, halflo), xs, xo, before, mid, y[..], yo);
    } else {
      NoPairs(p.n, p.howmany0);
    }
    assert x[..] == xs;
    done := done + Pairs(p.n, p.howmany0, 1, halflo);
    if p.howmany0 % 2 == 0 {
      ghost var mid := y[..];
      var l, table := t.middleLayout, t.middleTable;
      var row := RowAt(u, table, RowBase(l, p.n, halflo - 1), l, p.n);
      forall j | 0 <= j < p.n ensures row(j) == Twiddles(u, p.n * p.howmany0, p.dir, halflo)(j) {
        RowAtHolds(u, p, l, table, halflo - 1, j);
      }
      MiddleHalf(u, p, row, x, xo, y, yo);
      AddPlaces(u, p, done, Middle(p.n, p.howmany0), xs, xo, before, mid, y[..], yo);
    } else {
      NoMiddle(p.n, p.howmany0);
    }
    assert done + Middle(p.n, p.howmany0) == Half(p.n, p.howmany0);
  }

  lemma NoPairs(n: int, m: int)
    requires HalfLow(m) <= 1
    ensures forall s: places :: s + Pairs(n, m, 1, HalfLow(m)) == s
  {
    assert forall h, k :: (h, k) !in Pairs(n, m, 1, HalfLow(m));
    assert Pairs(n, m, 1, HalfLow(m)) == {};
  }

  lemma NoMiddle(n: int, m: int)
    requires m % 2 != 0
    ensures forall s: places :: s + Middle(n, m) == s
  {
  }

  method ExecuteAcReal<T(!new)>(u: Roots<T>, t: RealTwid<T>, x: array<T>, xo: int, y: array<T>, yo: int)
    requires IsRoots(u) && t.AcReal? && RealTwidSolves(u, t) && x != y && HalfRoom(t.tp, xo, x.Length, yo, y.Length)
    modifies y
    ensures HalfDone(u, t.tp, x[..], xo, old(y[..]), y[..], yo)
  {
    var AcReal(p, l, table) := t;
    ghost var before, xs := y[..], x[..];
    Tiles(p.n, p.howmany0);
    hide Layout.At, Half, Pairs, Block, Middle, IsRoots, PlacesSolved, PlacesTouched, HalfSeparate;
    ghost var first := Block(0, 1, p.n / 2 + 1);
    FirstHalf(u, p, x, xo, y, yo);
    var halflo := HalfLow(p.howmany0);
    ghost var mid0 := y[..];
    EmptyPlaces(u, p, xs, xo, mid0, yo);
    for i := 1 to halflo
      invariant x[..] == xs
      invariant PlacesSolved(u, p, Pairs(p.n, p.howmany0, 1, i), xs, xo, y[..], yo)
      invariant PlacesTouched(p, Pairs(p.n, p.howmany0, 1, i), mid0, y[..], yo)
    {
      ghost var mid := y[..];
      PairedColumn(u, t, i, x, xo, y, yo);
      SomePairs(p.n, p.howmany0, i);
      AddPlaces(u, p, Pairs(p.n, p.howmany0, 1, i), Pairs(p.n, p.howmany0, i, i + 1), xs, xo, mid0, mid, y[..], yo);
    }
    AddPlaces(u, p, first, Pairs(p.n, p.howmany0, 1, halflo), xs, xo, before, mid0, y[..], yo);
    ghost var done := first + Pairs(p.n, p.howmany0, 1, halflo);
    if p.howmany0 % 2 == 0 {
      ghost var mid := y[..];
      var row := RowFrom(u, table, (halflo - 1) * l.slots * (p.n - 1), l.slots);
      forall j | 0 <= j < p.n ensures row(j) == Twiddles(u, p.n * p.howmany0, p.dir, halflo)(j) {
        RowFromHolds(u, p, l, table, halflo, j);
      }
      MiddleHalf(u, p, row, x, xo, y, yo);
      AddPlaces(u, p, done, Middle(p.n, p.howmany0), xs, xo, before, mid, y[..], yo);
    } else {
      NoMiddle(p.n, p.howmany0);
    }
    assert done + Middle(p.n, p.howmany0) == Half(p.n, p.howmany0);
  }

  lemma SomePairs(n: pos, m: pos, i: int)
    requires n > 1 && 1 <= i < HalfLow(m)
    ensures Pairs(n, m, 1, i) <= Half(n, m) && Pairs(n, m, i, i + 1) <= Half(n, m)
    ensures Pairs(n, m, 1, i) + Pairs(n, m, i, i + 1) == Pairs(n, m, 1, i + 1)
    ensures Pairs(n, m, 1, i) !! Pairs(n, m, i, i + 1)
  {
    Tiles(n, m);
    OneMorePair(n, m, i);
    assert Pairs(n, m, 1, i) <= Pairs(n, m, 1, HalfLow(m));
    assert Pairs(n, m, i, i + 1) <= Pairs(n, m, 1, HalfLow(m));
  }

  lemma EmptyPlaces<T(!new)>(u: Roots<T>, p: TwidProblem, xs: seq<T>, xo: int, ys: seq<T>, yo: int)
    requires p.n >= 0
    ensures var s := Pairs(p.n, p.howmany0, 1, 1); PlacesSolved(u, p, s, xs, xo, ys, yo) && PlacesTouched(p, s, ys, ys, yo)
  {
    assert forall h, k :: (h, k) !in Pairs(p.n, p.howmany0, 1, 1);
  }
}
