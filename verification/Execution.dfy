/** Execution of plan trees on arrays. */
module Execution {
  import opened Integers
  import opened Algebra
  import opened Roots
  import opened Transform
  import opened Memory
  import opened Twiddle
  import opened Generator
  import opened Rader
  import opened Bluestein
  import opened Plans
  import opened ScratchMemory
  import opened Buffers
  import opened Convolutions

  // ----- direct plans

  lemma KernelOfOnes<T(!new)>(u: Roots<T>, n: pos, d: int, x: int -> T, k: int)
    requires IsRoots(u)
    ensures KernelValue(u, n, d, x, Const(u.ring.one), k) == Dft(u, n, d, x, k)
  {
    forall j | 0 <= j < n
      ensures KernelTerms(u, n, d, x, Const(u.ring.one), k)(j) == DftTerms(u, n, d, x, k)(j)
    {
      MulLaws(u.ring, x(j), x(j), x(j));
    }
    SumExt(u.ring, n, KernelTerms(u, n, d, x, Const(u.ring.one), k), DftTerms(u, n, d, x, k));
  }

  method ExecuteDirect<T(!new)>(u: Roots<T>, p: Problem, x: array<T>, xo: int, y: array<T>, yo: int)
    requires IsRoots(u) && p.n > 0 && p.howmany > 0
    requires Room(p, p.In(xo), x.Length, p.Out(yo), y.Length)
    requires x == y ==> SameAddresses(p.In(xo), p.Out(yo), p.howmany, p.n)
    modifies y
    ensures Solved(u, p, old(x[..]), p.In(xo), y[..], p.Out(yo))
    ensures OnlyTouched(p.Out(yo), p.howmany, p.n, old(y[..]), y[..])
  {
    hide Layout.At;
    ghost var xs := x[..];
    Kernel(u, p.n, p.dir, x, p.In(xo), y, p.Out(yo), p.howmany, _ => Const(u.ring.one));
    forall h, k {:trigger p.Out(yo).At(h, k)} | 0 <= h < p.howmany && 0 <= k < p.n
      ensures y[p.Out(yo).At(h, k)] == Dft(u, p.n, p.dir, Column(u, xs, p.In(xo), h), k)
    {
      KernelOfOnes(u, p.n, p.dir, Column(u, xs, p.In(xo), h), k);
    }
  }

  method ExecuteFft1<T(!new)>(u: Roots<T>, p: Problem, x: array<T>, xo: int, y: array<T>, yo: int)
    requires IsRoots(u) && p.n == 1 && p.howmany > 0
    requires Room(p, p.In(xo), x.Length, p.Out(yo), y.Length)
    requires x == y ==> SameAddresses(p.In(xo), p.Out(yo), p.howmany, p.n)
    modifies y
    ensures Solved(u, p, old(x[..]), p.In(xo), y[..], p.Out(yo))
    ensures OnlyTouched(p.Out(yo), p.howmany, p.n, old(y[..]), y[..])
  {
    ghost var xs := x[..];
    var xl, yl := p.In(xo), p.Out(yo);
    hide Layout.At;
    for h := 0 to p.howmany
      invariant forall h' :: 0 <= h' < h ==> y[yl.At(h', 0)] == xs[xl.At(h', 0)]
      invariant forall h' :: h <= h' < p.howmany ==> x[xl.At(h', 0)] == xs[xl.At(h', 0)]
      invariant forall a :: 0 <= a < y.Length && !Touches(yl, h, 1, a) ==> y[a] == old(y[a])
    {
      y[yl.At(h, 0)] := x[xl.At(h, 0)];
    }
    forall h, k {:trigger yl.At(h, k)} | 0 <= h < p.howmany && 0 <= k < 1
      ensures y[yl.At(h, k)] == Dft(u, 1, p.dir, Column(u, xs, xl, h), k)
    {
      TransformOfOne(u, p.dir, Column(u, xs, xl, h));
    }
  }

  lemma TransformOfOne<T(!new)>(u: Roots<T>, d: int, x: int -> T)
    requires IsRoots(u)
    ensures Dft(u, 1, d, x, 0) == x(0)
  {
    DftZero(u, 1, d, x);
    SumSingle(u.ring, 1, 0, x);
  }

  // ----- twiddled stages

  ghost predicate TouchesColumns(p: TwidProblem, lo: int, hi: int, yo: int, a: int) {
    exists b, h, k {:trigger p.Out(yo, b).At(h, k)} :: p.Has(b, h, k) && lo <= h < hi && p.Out(yo, b).At(h, k) == a
  }

  /** Columns lo..hi of every inner copy hold their twiddled transforms. */
  ghost predicate ColumnsSolved<T(!new)>(u: Roots<T>, p: TwidProblem, lo: int, hi: int, xs: seq<T>, xo: int, after: seq<T>, yo: int)
    requires p.n >= 0
  {
    forall b, h, k {:trigger p.Out(yo, b).At(h, k)} ::
      p.Has(b, h, k) && lo <= h < hi && 0 <= p.Out(yo, b).At(h, k) < |after| ==>
        after[p.Out(yo, b).At(h, k)] ==
        KernelValue(u, p.n, p.dir, Column(u, xs, p.In(xo, b), h), Twiddles(u, p.n * p.howmany0, p.dir, h), k)
  }

  /** Only columns lo..hi were written. */
  ghost predicate ColumnsTouched<T(!new)>(p: TwidProblem, lo: int, hi: int, before: seq<T>, after: seq<T>, yo: int) {
    && |after| == |before|
    && forall a :: 0 <= a < |before| && !TouchesColumns(p, lo, hi, yo, a) ==> after[a] == before[a]
  }

  lemma AddColumns<T(!new)>(u: Roots<T>, p: TwidProblem, lo: int, hi: int, xs: seq<T>, xo: int,
                            before: seq<T>, mid: seq<T>, after: seq<T>, yo: int)
    requires p.n >= 0 && 0 <= lo <= hi <= p.howmany0 && TwidSeparate(p, yo)
    requires ColumnsSolved(u, p, 0, lo, xs, xo, mid, yo) && ColumnsTouched(p, 0, lo, before, mid, yo)
    requires ColumnsSolved(u, p, lo, hi, xs, xo, after, yo) && ColumnsTouched(p, lo, hi, mid, after, yo)
    ensures ColumnsSolved(u, p, 0, hi, xs, xo, after, yo) && ColumnsTouched(p, 0, hi, before, after, yo)
  {
    hide Layout.At, KernelValue;
  }

  lemma AllColumns<T(!new)>(u: Roots<T>, p: TwidProblem, xs: seq<T>, xo: int, before: seq<T>, after: seq<T>, yo: int)
    requires p.n >= 0
    requires ColumnsSolved(u, p, 0, p.howmany0, xs, xo, after, yo) && ColumnsTouched(p, 0, p.howmany0, before, after, yo)
    ensures TwidSolved(u, p, xs, xo, after, yo) && TwidOnlyTouched(p, yo, before, after)
  {
    hide Layout.At, KernelValue;
  }

  /** Row of the table, with the unstored factor 1 of input 0 in front. */
  function TableRow<T>(u: Roots<T>, table: seq<T>, l: TableLayout, n: int, row: int): int -> T {
    j => if j == 0 then u.ring.one else Get(u.ring.zero, table, l.Slot(n, row, j))
  }

  lemma TableRowHolds<T(!new)>(u: Roots<T>, p: TwidProblem, l: TableLayout, table: seq<T>, h: int, j: int)
    requires IsRoots(u) && p.n > 0 && p.howmany0 > 0 && Divides(p.n * p.howmany0, u.order)
    requires TableHolds(u, p, l, table) && l.FirstRow() <= h < p.howmany0 && 0 <= j < p.n
    ensures TableRow(u, table, l, p.n, h - l.FirstRow())(j) == Twiddles(u, p.n * p.howmany0, p.dir, h)(j)
  {
    hide TableLayout.Slot;
    if j == 0 {
      assert Phase(p.dir, h, 0) == 0;
      WZero(u, p.n * p.howmany0);
    } else {
      var a := l.Slot(p.n, h - l.FirstRow(), j);
      assert 0 <= a < |table|;
    }
  }

  /** The layouts address columns lo..hi of inner copy b. */
  ghost predicate AddressesColumns(p: TwidProblem, b: int, lo: int, hi: int, xl: Layout, xo: int, yl: Layout, yo: int) {
    && (forall h, j {:trigger xl.At(h, j)} :: 0 <= h < hi - lo && 0 <= j < p.n ==> xl.At(h, j) == p.In(xo, b).At(lo + h, j))
    && (forall h, k {:trigger yl.At(h, k)} :: 0 <= h < hi - lo && 0 <= k < p.n ==> yl.At(h, k) == p.Out(yo, b).At(lo + h, k))
  }

  lemma ColumnRoom(p: TwidProblem, lo: int, hi: int, xl: Layout, xo: int, xlen: int, yl: Layout, yo: int, ylen: int)
    requires p.howmany1 == 1 && 0 <= lo <= hi <= p.howmany0 && TwidRoom(p, xo, xlen, yo, ylen)
    requires AddressesColumns(p, 0, lo, hi, xl, xo, yl, yo)
    ensures Within(xl, hi - lo, p.n, xlen) && Within(yl, hi - lo, p.n, ylen) && Separate(yl, hi - lo, p.n)
  {
    hide Layout.At;
    assert Within(p.In(xo, 0), p.howmany0, p.n, xlen) && Within(p.Out(yo, 0), p.howmany0, p.n, ylen);
    forall h, k, h', k' {:trigger yl.At(h, k), yl.At(h', k')}
      | 0 <= h < hi - lo && 0 <= k < p.n && 0 <= h' < hi - lo && 0 <= k' < p.n && yl.At(h, k) == yl.At(h', k')
      ensures h == h' && k == k'
    {
      assert p.Has(0, lo + h, k) && p.Has(0, lo + h', k');
      assert p.Out(yo, 0).At(lo + h, k) == p.Out(yo, 0).At(lo + h', k');
    }
  }

  /** What a kernel call on columns lo..hi of a batch without inner copies does. */
  lemma KernelColumns<T(!new)>(u: Roots<T>, p: TwidProblem, lo: int, hi: int, xs: seq<T>, xl: Layout, xo: int,
                               before: seq<T>, after: seq<T>, yl: Layout, yo: int, tw: int -> int -> T)
    requires p.n > 0 && p.howmany1 == 1 && 0 <= lo <= hi <= p.howmany0 && TwidRoom(p, xo, |xs|, yo, |after|)
    requires AddressesColumns(p, 0, lo, hi, xl, xo, yl, yo)
    requires forall h, j {:trigger tw(h)(j)} :: 0 <= h < hi - lo && 0 <= j < p.n ==>
               tw(h)(j) == Twiddles(u, p.n * p.howmany0, p.dir, lo + h)(j)
    requires Kerneled(u, p.n, p.dir, xs, xl, after, yl, hi - lo, tw) && OnlyTouched(yl, hi - lo, p.n, before, after)
    ensures ColumnsSolved(u, p, lo, hi, xs, xo, after, yo) && ColumnsTouched(p, lo, hi, before, after, yo)
  {
    hide Layout.At, KernelValue, Twiddles;
    ColumnRoom(p, lo, hi, xl, xo, |xs|, yl, yo, |after|);
    forall b, h, k {:trigger p.Out(yo, b).At(h, k)} | p.Has(b, h, k) && lo <= h < hi
      ensures after[p.Out(yo, b).At(h, k)] ==
              KernelValue(u, p.n, p.dir, Column(u, xs, p.In(xo, b), h), Twiddles(u, p.n * p.howmany0, p.dir, h), k)
    {
      var h' := h - lo;
      assert yl.At(h', k) == p.Out(yo, b).At(h, k);
      forall j | 0 <= j < p.n
        ensures Column(u, xs, xl, h')(j) == Column(u, xs, p.In(xo, b), h)(j)
        ensures tw(h')(j) == Twiddles(u, p.n * p.howmany0, p.dir, h)(j)
      {
        assert xl.At(h', j) == p.In(xo, b).At(h, j);
      }
      KernelExt(u, p.n, p.dir, Column(u, xs, xl, h'), Column(u, xs, p.In(xo, b), h), tw(h'),
        Twiddles(u, p.n * p.howmany0, p.dir, h), k);
    }
    forall a | Touches(yl, hi - lo, p.n, a) ensures TouchesColumns(p, lo, hi, yo, a) {
      var h', k :| 0 <= h' < hi - lo && 0 <= k < p.n && yl.At(h', k) == a;
      assert p.Has(0, lo + h', k);
    }
  }

  lemma FirstColumnTwiddles<T(!new)>(u: Roots<T>, n: pos, d: int, j: int)
    requires IsRoots(u) && Divides(n, u.order)
    ensures Twiddles(u, n, d, 0)(j) == u.ring.one
  {
    assert Phase(d, 0, j) == 0;
    WZero(u, n);
  }

  method ExecuteAb<T(!new)>(u: Roots<T>, t: Twid<T>, x: array<T>, xo: int, y: array<T>, yo: int)
    requires IsRoots(u) && t.AbTwid? && TwidSolves(u, t)
    requires x != y && TwidRoom(t.tp, xo, x.Length, yo, y.Length)
    modifies y
    ensures TwidSolved(u, t.tp, x[..], xo, y[..], yo)
    ensures TwidOnlyTouched(t.tp, yo, old(y[..]), y[..])
  {
    var AbTwid(p, l, table) := t;
    ghost var before, xs := y[..], x[..];
    var xl, yl := Layout(xo, 0, p.istride), Layout(yo, 0, p.ostride);
    assert AddressesColumns(p, 0, 0, 1, xl, xo, yl, yo);
    ColumnRoom(p, 0, 1, xl, xo, x.Length, yl, yo, y.Length);
    Kernel(u, p.n, p.dir, x, xl, y, yl, 1, _ => Const(u.ring.one));
    ghost var mid := y[..];
    forall j ensures Twiddles(u, p.n * p.howmany0, p.dir, 0)(j) == Const(u.ring.one)(j) {
      FirstColumnTwiddles(u, p.n * p.howmany0, p.dir, j);
    }
    KernelColumns(u, p, 0, 1, xs, xl, xo, before, mid, yl, yo, _ => Const(u.ring.one));
    if p.howmany0 > 1 {
      var xl, yl := Layout(xo + p.idist0, p.idist0, p.istride), Layout(yo + p.odist0, p.odist0, p.ostride);
      var tw := row => TableRow(u, table, l, p.n, row);
      assert AddressesColumns(p, 0, 1, p.howmany0, xl, xo, yl, yo);
      ColumnRoom(p, 1, p.howmany0, xl, xo, x.Length, yl, yo, y.Length);
      Kernel(u, p.n, p.dir, x, xl, y, yl, p.howmany0 - 1, tw);
      forall h, j | 0 <= h < p.howmany0 - 1 && 0 <= j < p.n
        ensures tw(h)(j) == Twiddles(u, p.n * p.howmany0, p.dir, 1 + h)(j)
      {
        TableRowHolds(u, p, l, table, h + 1, j);
      }
      KernelColumns(u, p, 1, p.howmany0, xs, xl, xo, mid, y[..], yl, yo, tw);
      AddColumns(u, p, 1, p.howmany0, xs, xo, before, mid, y[..], yo);
    }
    AllColumns(u, p, xs, xo, before, y[..], yo);
  }

  /** The layouts address column i of every inner copy. */
  ghost predicate AddressesCopies(p: TwidProblem, i: int, xl: Layout, xo: int, yl: Layout, yo: int) {
    && (forall b, j {:trigger xl.At(b, j)} :: xl.At(b, j) == p.In(xo, b).At(i, j))
    && (forall b, k {:trigger yl.At(b, k)} :: yl.At(b, k) == p.Out(yo, b).At(i, k))
  }

  lemma CopiesRoom(p: TwidProblem, i: int, xl: Layout, xo: int, xlen: int, yl: Layout, yo: int, ylen: int)
    requires 0 <= i < p.howmany0 && TwidRoom(p, xo, xlen, yo, ylen) && AddressesCopies(p, i, xl, xo, yl, yo)
    ensures Within(xl, p.howmany1, p.n, xlen) && Within(yl, p.howmany1, p.n, ylen) && Separate(yl, p.howmany1, p.n)
  {
    hide Layout.At;
    forall b, j {:trigger xl.At(b, j)} | 0 <= b < p.howmany1 && 0 <= j < p.n ensures 0 <= xl.At(b, j) < xlen {
      assert Within(p.In(xo, b), p.howmany0, p.n, xlen);
    }
    forall b, k {:trigger yl.At(b, k)} | 0 <= b < p.howmany1 && 0 <= k < p.n ensures 0 <= yl.At(b, k) < ylen {
      assert Within(p.Out(yo, b), p.howmany0, p.n, ylen);
    }
    forall b, k, b', k' {:trigger yl.At(b, k), yl.At(b', k')}
      | 0 <= b < p.howmany1 && 0 <= k < p.n && 0 <= b' < p.howmany1 && 0 <= k' < p.n && yl.At(b, k) == yl.At(b', k')
      ensures b == b' && k == k'
    {
      assert p.Has(b, i, k) && p.Has(b', i, k');
      assert p.Out(yo, b).At(i, k) == p.Out(yo, b').At(i, k');
    }
  }

  /** What a kernel call on column i of all inner copies does. */
  lemma KernelCopies<T(!new)>(u: Roots<T>, p: TwidProblem, i: int, xs: seq<T>, xl: Layout, xo: int,
                              before: seq<T>, after: seq<T>, yl: Layout, yo: int, row: int -> T)
    requires p.n > 0 && 0 <= i < p.howmany0 && TwidRoom(p, xo, |xs|, yo, |after|)
    requires AddressesCopies(p, i, xl, xo, yl, yo)
    requires forall j :: 0 <= j < p.n ==> row(j) == Twiddles(u, p.n * p.howmany0, p.dir, i)(j)
    requires Kerneled(u, p.n, p.dir, xs, xl, after, yl, p.howmany1, _ => row) && OnlyTouched(yl, p.howmany1, p.n, before, after)
    ensures ColumnsSolved(u, p, i, i + 1, xs, xo, after, yo) && ColumnsTouched(p, i, i + 1, before, after, yo)
  {
    hide Layout.At, KernelValue, Twiddles;
    CopiesRoom(p, i, xl, xo, |xs|, yl, yo, |after|);
    forall b, h, k {:trigger p.Out(yo, b).At(h, k)} | p.Has(b, h, k) && i <= h < i + 1
      ensures after[p.Out(yo, b).At(h, k)] ==
              KernelValue(u, p.n, p.dir, Column(u, xs, p.In(xo, b), h), Twiddles(u, p.n * p.howmany0, p.dir, h), k)
    {
      assert yl.At(b, k) == p.Out(yo, b).At(h, k);
      forall j | 0 <= j < p.n ensures Column(u, xs, xl, b)(j) == Column(u, xs, p.In(xo, b), h)(j) {
        assert xl.At(b, j) == p.In(xo, b).At(h, j);
      }
      KernelExt(u, p.n, p.dir, Column(u, xs, xl, b), Column(u, xs, p.In(xo, b), h), row,
        Twiddles(u, p.n * p.howmany0, p.dir, h), k);
    }
    forall a | Touches(yl, p.howmany1, p.n, a) ensures TouchesColumns(p, i, i + 1, yo, a) {
      var b, k :| 0 <= b < p.howmany1 && 0 <= k < p.n && yl.At(b, k) == a;
      assert p.Has(b, i, k);
    }
  }

  /** The row of factors a kernel reads from position offset on. */
  function RowFrom<T>(u: Roots<T>, table: seq<T>, offset: int, slots: int): int -> T {
    j => if j == 0 then u.ring.one else Get(u.ring.zero, table, offset + slots * (j - 1))
  }

  /** Without interleaving, row h - 1 starts (h - 1) slots (n - 1) into the table. */
  lemma RowFromHolds<T(!new)>(u: Roots<T>, p: TwidProblem, l: TableLayout, table: seq<T>, h: int, j: int)
    requires IsRoots(u) && p.n > 1 && p.howmany0 > 0 && Divides(p.n * p.howmany0, u.order)
    requires TableHolds(u, p, l, table) && !l.unityRow && l.interleave == 1 && 1 <= h < p.howmany0 && 0 <= j < p.n
    ensures RowFrom(u, table, (h - 1) * l.slots * (p.n - 1), l.slots)(j) == Twiddles(u, p.n * p.howmany0, p.dir, h)(j)
  {
    if j > 0 {
      assert l.Slot(p.n, h - 1, j) == (h - 1) * l.slots * (p.n - 1) + l.slots * (j - 1) by {
        assert l.Slot(p.n, h - 1, j) == l.slots * ((h - 1) * (p.n - 1) + (j - 1));
      }
    }
    TableRowHolds(u, p, l, table, h, j);
  }

  method ExecuteAc<T(!new)>(u: Roots<T>, t: Twid<T>, x: array<T>, xo: int, y: array<T>, yo: int)
    requires IsRoots(u) && t.AcTwid? && TwidSolves(u, t)
    requires x != y && TwidRoom(t.tp, xo, x.Length, yo, y.Length)
    modifies y
    ensures TwidSolved(u, t.tp, x[..], xo, y[..], yo)
    ensures TwidOnlyTouched(t.tp, yo, old(y[..]), y[..])
  {
    var AcTwid(p, l, table) := t;
    ghost var before, xs := y[..], x[..];
    var xl, yl := Layout(xo, 1, p.istride), Layout(yo, 1, p.ostride);
    assert AddressesCopies(p, 0, xl, xo, yl, yo);
    CopiesRoom(p, 0, xl, xo, x.Length, yl, yo, y.Length);
    Kernel(u, p.n, p.dir, x, xl, y, yl, p.howmany1, _ => Const(u.ring.one));
    forall j ensures Twiddles(u, p.n * p.howmany0, p.dir, 0)(j) == Const(u.ring.one)(j) {
      FirstColumnTwiddles(u, p.n * p.howmany0, p.dir, j);
    }
    KernelCopies(u, p, 0, xs, xl, xo, before, y[..], yl, yo, Const(u.ring.one));
    for i := 1 to p.howmany0
      invariant ColumnsSolved(u, p, 0, i, xs, xo, y[..], yo) && ColumnsTouched(p, 0, i, before, y[..], yo)
    {
      ghost var mid := y[..];
      var offset := (i - 1) * l.slots * (p.n - 1);
      var row := RowFrom(u, table, offset, l.slots);
      xl, yl := Layout(xo + i * p.idist0, 1, p.istride), Layout(yo + i * p.odist0, 1, p.ostride);
      assert AddressesCopies(p, i, xl, xo, yl, yo);
      CopiesRoom(p, i, xl, xo, x.Length, yl, yo, y.Length);
      Kernel(u, p.n, p.dir, x, xl, y, yl, p.howmany1, _ => row);
      forall j | 0 <= j < p.n ensures row(j) == Twiddles(u, p.n * p.howmany0, p.dir, i)(j) {
        RowFromHolds(u, p, l, table, i, j);
      }
      KernelCopies(u, p, i, xs, xl, xo, mid, y[..], yl, yo, row);
      AddColumns(u, p, i, i + 1, xs, xo, before, mid, y[..], yo);
    }
    AllColumns(u, p, xs, xo, before, y[..], yo);
  }

  // ----- nested plans

  /** The convolution buffers, which only convolving plans may touch. */
  function ConvolutionBuffers<T>(s: Scratch<T>, needed: bool): set<array<T>>
    reads s
  {
    if needed then {s.rader, s.bluestein} else {}
  }

  lemma BatchRoom(m: nat, howmany: pos, dir: int, len: int)
    requires len >= m * howmany
    ensures BatchProblem(m, howmany, dir).In(0) == BatchProblem(m, howmany, dir).Out(0) == Interleaved(howmany)
    ensures Room(BatchProblem(m, howmany, dir), Interleaved(howmany), len, Interleaved(howmany), len)
    ensures SameAddresses(Interleaved(howmany), Interleaved(howmany), howmany, m)
  {
    InterleavedRoom(howmany, m, len);
  }

  /** Transforms the buffer in place, multiplies and transforms back. */
  method ConvolveInPlace<T(!new)>(u: Roots<T>, s: Scratch<T>, m: nat, howmany: pos, fwd: Plan<T>, bwd: Plan<T>,
                                  bfft: seq<T>, a: array<T>)
    requires IsRoots(u) && ConvolutionPlans(u, m, howmany, fwd, bwd) && |bfft| == m
    requires s.Valid() && a !in s.Free() && a.Length >= m * howmany
    modifies s, s.Free(), a
    ensures Convolved(u, m, howmany, bfft, old(a[..]), a[..])
    ensures s.Kept() && s.rader == old(s.rader) && s.bluestein == old(s.bluestein)
    decreases Size(fwd) + Size(bwd) + 1, 0
  {
    BatchRoom(m, howmany, -1, a.Length);
    BatchRoom(m, howmany, 1, a.Length);
    hide Layout.At, Room, SameAddresses, Solves;
    ghost var s0 := a[..];
    Execute(u, s, fwd, BatchProblem(m, howmany, -1), a, 0, a, 0);
    ghost var s1 := a[..];
    PointwiseMultiply(u, a, bfft, m, howmany);
    ghost var s2 := a[..];
    Execute(u, s, bwd, BatchProblem(m, howmany, 1), a, 0, a, 0);
    ConvolvedIntro(u, m, howmany, bfft, s0, s1, s2, a[..]);
  }

  method Execute<T(!new)>(u: Roots<T>, s: Scratch<T>, plan: Plan<T>, p: Problem, x: array<T>, xo: int, y: array<T>, yo: int)
    requires IsRoots(u) && Solves(u, plan, p) && s.Valid()
    requires Room(p, p.In(xo), x.Length, p.Out(yo), y.Length)
    requires x == y ==> SameAddresses(p.In(xo), p.Out(yo), p.howmany, p.n)
    requires {x, y} !! s.Free() + ConvolutionBuffers(s, Convolves(plan))
    modifies s, s.Free(), y, ConvolutionBuffers(s, Convolves(plan))
    ensures Solved(u, p, old(x[..]), p.In(xo), y[..], p.Out(yo))
    ensures OnlyTouched(p.Out(yo), p.howmany, p.n, old(y[..]), y[..])
    ensures s.Kept()
    ensures s.rader == old(s.rader) || (Convolves(plan) && fresh(s.rader))
    ensures s.bluestein == old(s.bluestein) || (Convolves(plan) && fresh(s.bluestein))
    decreases Size(plan), 2
  {
    match plan
    case Direct(_) => ExecuteDirect(u, p, x, xo, y, yo);
    case Fft1(_, _, _) => ExecuteFft1(u, p, x, xo, y, yo);
    case CooleyTukeyPlan(_, _, _, _) => ExecuteCooleyTukey(u, s, plan, p, x, xo, y, yo);
    case Loop(_, _, _, _) => ExecuteLoop(u, s, plan, p, x, xo, y, yo);
    case RaderSingle(_, _, _, _, _, _, _, _, _) => ExecuteRaderSingle(u, s, plan, p, x, xo, y, yo);
    case RaderBatch(_, _, _, _, _, _, _, _) => ExecuteRaderBatch(u, s, plan, p, x, xo, y, yo);
    case BluesteinSingle(_, _, _, _, _, _, _, _) => ExecuteBluestein(u, s, plan, p, x, xo, y, yo);
    case BluesteinBatch(_, _, _, _, _, _) => ExecuteBluestein(u, s, plan, p, x, xo, y, yo);
  }

  // ----- convolutions

  /** Packs, convolves and unpacks a batch. */
  method ConvolveRader<T(!new)>(u: Roots<T>, s: Scratch<T>, n: int, d: sign, howmany: pos, fwd: Plan<T>, bwd: Plan<T>,
                                perm: seq<int>, rev: seq<int>, bfft: seq<T>, twiddled: bool, tw: int -> int -> T,
                                x: array<T>, xl: Layout, a: array<T>, y: array<T>, yl: Layout)
    requires IsRoots(u) && n > 2 && Divides(n, u.order) && Divides(n - 1, u.order)
    requires ConvolutionPlans(u, n - 1, howmany, fwd, bwd)
    requires RaderTables(n, perm, rev) && RaderSpectrum(u, n, d, perm, bfft) && Factors(u, twiddled, tw)
    requires Within(xl, howmany, n, x.Length) && Within(yl, howmany, n, y.Length) && Separate(yl, howmany, n)
    requires s.Valid() && {x, y, a} !! s.Free() && a !in {x, y} && a.Length >= (n + 1) * howmany
    modifies s, s.Free(), a, y
    ensures Kerneled(u, n, d, old(x[..]), xl, y[..], yl, howmany, tw)
    ensures OnlyTouched(yl, howmany, n, old(y[..]), y[..])
    ensures s.Kept() && s.rader == old(s.rader) && s.bluestein == old(s.bluestein)
    decreases Size(fwd) + Size(bwd) + 1, 1
  {
    ghost var xs := x[..];
    FewerRows(n - 1, n + 1, howmany);
    assert |bfft| == n - 1;
    TablesInRange(n, perm, rev);
    hide PermInRange, RevInRange, Layout.At, Within, Separate, RaderTables, RaderSpectrum, ConvolutionPlans, IsRoots, Divides, Factors, RaderPacked,
         Kerneled, Convolved, Size, Inputs;
    assert IsRing(u.ring) by { RingOfRoots(u); }
    PackRader(u, x, xl, twiddled, tw, a, n, howmany, perm);
    assert x[..] == xs;
    ghost var before := a[..];
    ConvolveInPlace(u, s, n - 1, howmany, fwd, bwd, bfft, a);
    ghost var after := a[..];
    UnpackRader(u, y, yl, a, n, howmany, rev);
    RaderKerneled(u, n, d, perm, rev, bfft, howmany, xs, xl, tw, before, after, y[..], yl);
  }

  lemma RingOfRoots<T(!new)>(u: Roots<T>)
    requires IsRoots(u)
    ensures IsRing(u.ring)
  {
  }

  method ConvolveBluestein<T(!new)>(u: Roots<T>, s: Scratch<T>, n: pos, d: sign, howmany: pos, pad: pos, fwd: Plan<T>, bwd: Plan<T>,
                                    w: seq<T>, bfft: seq<T>, twiddled: bool, tw: int -> int -> T,
                                    x: array<T>, xl: Layout, a: array<T>, y: array<T>, yl: Layout)
    requires IsRoots(u) && Divides(2 * n, u.order) && Divides(pad, u.order)
    requires ConvolutionPlans(u, pad, howmany, fwd, bwd)
    requires ChirpSpectrum(u, n, d, pad, w, bfft) && ChirpFactors(u, twiddled, tw)
    requires Within(xl, howmany, n, x.Length) && Within(yl, howmany, n, y.Length) && Separate(yl, howmany, n)
    requires s.Valid() && {x, y, a} !! s.Free() && a !in {x, y} && a.Length >= pad * howmany
    modifies s, s.Free(), a, y
    ensures Kerneled(u, n, d, old(x[..]), xl, y[..], yl, howmany, tw)
    ensures OnlyTouched(yl, howmany, n, old(y[..]), y[..])
    ensures s.Kept() && s.rader == old(s.rader) && s.bluestein == old(s.bluestein)
    decreases Size(fwd) + Size(bwd) + 1, 1
  {
    ghost var xs := x[..];
    assert n <= pad && |w| == n && |bfft| == pad;
    assert forall k :: 0 <= k < n ==> w[k] == Chirp(u, n, d, k);
    FewerRows(n, pad, howmany);
    hide Layout.At, Within, Separate, ChirpSpectrum, ConvolutionPlans, IsRoots, Divides, ChirpFactors, ChirpPacked,
         Kerneled, Convolved, Size, Inputs, Chirp;
    assert IsRing(u.ring) by { RingOfRoots(u); }
    PackBluestein(u, x, xl, twiddled, tw, a, n, d, pad, howmany, w);
    assert x[..] == xs;
    ghost var before := a[..];
    ConvolveInPlace(u, s, pad, howmany, fwd, bwd, bfft, a);
    ghost var after := a[..];
    UnpackBluestein(u, y, yl, a, n, howmany, w);
    BluesteinKerneled(u, n, d, pad, w, bfft, howmany, xs, xl, tw, before, after, y[..], yl);
  }

  /** The two stages, through a buffer no plan uses. */
  method ExecuteStages<T(!new)>(u: Roots<T>, s: Scratch<T>, plan: Plan<T>, p: Problem,
                                x: array<T>, xo: int, buffer: array<T>, y: array<T>, yo: int)
    requires IsRoots(u) && plan.CooleyTukeyPlan? && Solves(u, plan, p) && s.Valid()
    requires Room(p, p.In(xo), x.Length, p.Out(yo), y.Length) && buffer.Length >= plan.n * plan.howmany
    requires {x, y} !! {buffer}
    requires {x, y, buffer} !! s.Free() + ConvolutionBuffers(s, Convolves(plan))
    modifies s, s.Free(), buffer, y, ConvolutionBuffers(s, Convolves(plan))
    ensures Solved(u, p, old(x[..]), p.In(xo), y[..], p.Out(yo))
    ensures OnlyTouched(p.Out(yo), p.howmany, p.n, old(y[..]), y[..])
    ensures s.Kept()
    ensures s.rader == old(s.rader) || (Convolves(plan) && fresh(s.rader))
    ensures s.bluestein == old(s.bluestein) || (Convolves(plan) && fresh(s.bluestein))
    decreases Size(plan), 0
  {
    Stages(u, plan, p);
    hide Layout.At, Stage1, Stage2, Separate, Within, TwidRoom, Solves, TwidSolves, Solved, TwidSolved, OnlyTouched,
         TwidOnlyTouched, Touches, TwidTouches, IsRoots, Divides, Convolves, TwidConvolves, SameAddresses, Size, TwidSize;
    ghost var xs, before := x[..], y[..];
    ghost var r: pos := Radix(plan.stage2);
    Stage1Room(p, r, xo, x.Length, buffer.Length);
    Execute(u, s, plan.stage1, Stage1(p, Radix(plan.stage2)), x, xo, buffer, 0);
    ghost var mid := buffer[..];
    Stage2Room(p, r, buffer.Length, yo, y.Length);
    ExecuteTwid(u, s, plan.stage2, buffer, 0, y, yo);
    Stage2Touches(p, r, yo, before, y[..]);
    CooleyTukeySolves(u, p, r, xs, xo, mid, y[..], yo);
  }

  method ExecuteCooleyTukey<T(!new)>(u: Roots<T>, s: Scratch<T>, plan: Plan<T>, p: Problem, x: array<T>, xo: int, y: array<T>, yo: int)
    requires IsRoots(u) && plan.CooleyTukeyPlan? && Solves(u, plan, p) && s.Valid()
    requires Room(p, p.In(xo), x.Length, p.Out(yo), y.Length)
    requires {x, y} !! s.Free() + ConvolutionBuffers(s, Convolves(plan))
    modifies s, s.Free(), y, ConvolutionBuffers(s, Convolves(plan))
    ensures Solved(u, p, old(x[..]), p.In(xo), y[..], p.Out(yo))
    ensures OnlyTouched(p.Out(yo), p.howmany, p.n, old(y[..]), y[..])
    ensures s.Kept()
    ensures s.rader == old(s.rader) || (Convolves(plan) && fresh(s.rader))
    ensures s.bluestein == old(s.bluestein) || (Convolves(plan) && fresh(s.bluestein))
    decreases Size(plan), 1
  {
    Stages(u, plan, p);
    hide Layout.At, Room, Solves, Solved, OnlyTouched, IsRoots, Convolves;
    var buffer := s.Push(u.ring.zero, plan.n * plan.howmany);
    ExecuteStages(u, s, plan, p, x, xo, buffer, y, yo);
    s.Release();
  }

  method ExecuteTwid<T(!new)>(u: Roots<T>, s: Scratch<T>, t: Twid<T>, x: array<T>, xo: int, y: array<T>, yo: int)
    requires IsRoots(u) && TwidSolves(u, t) && s.Valid()
    requires x != y && TwidRoom(t.tp, xo, x.Length, yo, y.Length)
    requires {x, y} !! s.Free() + ConvolutionBuffers(s, TwidConvolves(t))
    modifies s, s.Free(), y, ConvolutionBuffers(s, TwidConvolves(t))
    ensures TwidSolved(u, t.tp, old(x[..]), xo, y[..], yo)
    ensures TwidOnlyTouched(t.tp, yo, old(y[..]), y[..])
    ensures s.Kept()
    ensures s.rader == old(s.rader) || (TwidConvolves(t) && fresh(s.rader))
    ensures s.bluestein == old(s.bluestein) || (TwidConvolves(t) && fresh(s.bluestein))
    decreases TwidSize(t), 2
  {
    match t
    case AbTwid(_, _, _) => ExecuteAb(u, t, x, xo, y, yo);
    case AcTwid(_, _, _) => ExecuteAc(u, t, x, xo, y, yo);
    case RaderTwid(_, _, _, _, _, _, _, _) => ExecuteRaderTwid(u, s, t, x, xo, y, yo);
    case BluesteinTwid(_, _, _, _, _, _, _) => ExecuteBluesteinTwid(u, s, t, x, xo, y, yo);
  }

  method ExecuteLoop<T(!new)>(u: Roots<T>, s: Scratch<T>, plan: Plan<T>, p: Problem, x: array<T>, xo: int, y: array<T>, yo: int)
    requires IsRoots(u) && plan.Loop? && Solves(u, plan, p) && s.Valid()
    requires Room(p, p.In(xo), x.Length, p.Out(yo), y.Length)
    requires x == y ==> SameAddresses(p.In(xo), p.Out(yo), p.howmany, p.n)
    requires {x, y} !! s.Free() + ConvolutionBuffers(s, Convolves(plan))
    modifies s, s.Free(), y, ConvolutionBuffers(s, Convolves(plan))
    ensures Solved(u, p, old(x[..]), p.In(xo), y[..], p.Out(yo))
    ensures OnlyTouched(p.Out(yo), p.howmany, p.n, old(y[..]), y[..])
    ensures s.Kept()
    ensures s.rader == old(s.rader) || (Convolves(plan) && fresh(s.rader))
    ensures s.bluestein == old(s.bluestein) || (Convolves(plan) && fresh(s.bluestein))
    decreases Size(plan), 1
  {
    LoopParts(u, plan, p);
    hide Layout.At, Solves, Convolves, IsRoots, Within, Separate, SameAddresses, Size, Solved, OnlyTouched;
    ghost var xs, ys := x[..], y[..];
    LoopStart(u, p, xs, p.In(xo), ys, p.Out(yo));
    for i := 0 to p.howmany
      invariant s.Kept()
      invariant s.rader == old(s.rader) || (Convolves(plan) && fresh(s.rader))
      invariant s.bluestein == old(s.bluestein) || (Convolves(plan) && fresh(s.bluestein))
      invariant x != y ==> x[..] == xs
      invariant Solved(u, p.(howmany := i), xs, p.In(xo), y[..], p.Out(yo)) && OnlyTouched(p.Out(yo), i, p.n, ys, y[..])
    {
      ghost var now, before := x[..], y[..];
      var xi, yi := xo + i * plan.idist, yo + i * plan.odist;
      MemberRoom(p, i, xo, x.Length, yo, y.Length, x == y);
      Execute(u, s, plan.inner, Member(p), x, xi, y, yi);
      MemberUntouched(p, i, xs, now, p.In(xo), p.Out(yo), x == y);
      LoopStep(u, p, i, xs, now, xo, ys, before, y[..], yo);
    }
  }

  method ExecuteRaderSingle<T(!new)>(u: Roots<T>, s: Scratch<T>, plan: Plan<T>, p: Problem, x: array<T>, xo: int, y: array<T>, yo: int)
    requires IsRoots(u) && plan.RaderSingle? && Solves(u, plan, p) && s.Valid()
    requires Room(p, p.In(xo), x.Length, p.Out(yo), y.Length)
    requires x == y ==> SameAddresses(p.In(xo), p.Out(yo), p.howmany, p.n)
    requires {x, y} !! s.Free() + ConvolutionBuffers(s, Convolves(plan))
    modifies s, s.Free(), y, ConvolutionBuffers(s, Convolves(plan))
    ensures Solved(u, p, old(x[..]), p.In(xo), y[..], p.Out(yo))
    ensures OnlyTouched(p.Out(yo), p.howmany, p.n, old(y[..]), y[..])
    ensures s.Kept()
    ensures s.rader == old(s.rader) || (Convolves(plan) && fresh(s.rader))
    ensures s.bluestein == old(s.bluestein) || (Convolves(plan) && fresh(s.bluestein))
    decreases Size(plan), 1
  {
    RaderParts(u, plan, p);
    TablesInRange(p.n, plan.perm, plan.rev);
    assert IsRing(u.ring) by { RingOfRoots(u); }
    hide Layout.At, Solves, Convolves, RaderTables, RaderSpectrum, Divides, ConvolutionPlans, IsRoots, Within, Separate,
         SameAddresses, Size, Solved, Kerneled, Convolved, ColumnPacked, PermInRange, RevInRange, Inputs, Unpacked;
    ghost var xs, ys := x[..], y[..];
    var tw := Ones(u);
    assert Factors(u, false, tw) by { OnesFactors(u); }
    hide Factors, Ones;
    var a := s.GetRader(u.ring.zero, plan.m);
    var x0, sum := PackMember(u, x, p.In(xo), false, tw, 0, a, p.n, 1, plan.perm);
    ghost var before := a[..];
    ConvolveInPlace(u, s, plan.m, 1, plan.fwd, plan.bwd, plan.bfft, a);
    UnpackMember(u, y, p.Out(yo), 0, a, p.n, 1, x0, sum, plan.rev, 1);
    SingleSolved(u, p, plan.perm, plan.rev, plan.bfft, xs, p.In(xo), before, a[..], x0, sum, y[..], p.Out(yo));
    SingleTouched(p.Out(yo), p.n, ys, y[..]);
  }

  method ExecuteRaderBatch<T(!new)>(u: Roots<T>, s: Scratch<T>, plan: Plan<T>, p: Problem, x: array<T>, xo: int, y: array<T>, yo: int)
    requires IsRoots(u) && plan.RaderBatch? && Solves(u, plan, p) && s.Valid()
    requires Room(p, p.In(xo), x.Length, p.Out(yo), y.Length)
    requires x == y ==> SameAddresses(p.In(xo), p.Out(yo), p.howmany, p.n)
    requires {x, y} !! s.Free() + ConvolutionBuffers(s, Convolves(plan))
    modifies s, s.Free(), y, ConvolutionBuffers(s, Convolves(plan))
    ensures Solved(u, p, old(x[..]), p.In(xo), y[..], p.Out(yo))
    ensures OnlyTouched(p.Out(yo), p.howmany, p.n, old(y[..]), y[..])
    ensures s.Kept()
    ensures s.rader == old(s.rader) || (Convolves(plan) && fresh(s.rader))
    ensures s.bluestein == old(s.bluestein) || (Convolves(plan) && fresh(s.bluestein))
    decreases Size(plan), 1
  {
    RaderParts(u, plan, p);
    hide Layout.At, Solves, Convolves, RaderTables, RaderSpectrum, Divides, ConvolutionPlans, IsRoots, Kerneled, Within, Separate,
         SameAddresses, Size, OnlyTouched, Solved;
    ghost var xs := x[..];
    var tw := Ones(u);
    var a := s.GetRader(u.ring.zero, (plan.m + 2) * plan.astride);
    assert Factors(u, false, tw) by { OnesFactors(u); }
    ConvolveRader(u, s, p.n, p.dir, p.howmany, plan.fwd, plan.bwd, plan.perm, plan.rev, plan.bfft, false, tw,
      x, p.In(xo), a, y, p.Out(yo));
    KerneledSolves(u, p, xs, p.In(xo), y[..], p.Out(yo));
  }

  method ExecuteBluestein<T(!new)>(u: Roots<T>, s: Scratch<T>, plan: Plan<T>, p: Problem, x: array<T>, xo: int, y: array<T>, yo: int)
    requires IsRoots(u) && (plan.BluesteinSingle? || plan.BluesteinBatch?) && Solves(u, plan, p) && s.Valid()
    requires Room(p, p.In(xo), x.Length, p.Out(yo), y.Length)
    requires x == y ==> SameAddresses(p.In(xo), p.Out(yo), p.howmany, p.n)
    requires {x, y} !! s.Free() + ConvolutionBuffers(s, Convolves(plan))
    modifies s, s.Free(), y, ConvolutionBuffers(s, Convolves(plan))
    ensures Solved(u, p, old(x[..]), p.In(xo), y[..], p.Out(yo))
    ensures OnlyTouched(p.Out(yo), p.howmany, p.n, old(y[..]), y[..])
    ensures s.Kept()
    ensures s.rader == old(s.rader) || (Convolves(plan) && fresh(s.rader))
    ensures s.bluestein == old(s.bluestein) || (Convolves(plan) && fresh(s.bluestein))
    decreases Size(plan), 1
  {
    BluesteinParts(u, plan, p);
    hide Layout.At, Solves, Convolves, ChirpSpectrum, Divides, ConvolutionPlans, IsRoots, Kerneled, Within, Separate,
         SameAddresses, Size, OnlyTouched, Solved;
    ghost var xs := x[..];
    var tw := Ones(u);
    var a := s.GetBluestein(u.ring.zero, plan.pad * p.howmany);
    assert ChirpFactors(u, false, tw) by { OnesFactors(u); }
    ConvolveBluestein(u, s, p.n, p.dir, p.howmany, plan.pad, plan.fwd, plan.bwd, plan.w, plan.bfft, false, tw,
      x, p.In(xo), a, y, p.Out(yo));
    KerneledSolves(u, p, xs, p.In(xo), y[..], p.Out(yo));
  }

  function Ones<T>(u: Roots<T>): int -> int -> T { _ => Const(u.ring.one) }

  lemma OnesFactors<T(!new)>(u: Roots<T>)
    ensures Factors(u, false, Ones(u)) && ChirpFactors(u, false, Ones(u))
  {
  }

  /** A kernel-like step without twiddles solves the problem. */
  lemma KerneledSolves<T(!new)>(u: Roots<T>, p: Problem, xs: seq<T>, xl: Layout, after: seq<T>, yl: Layout)
    requires IsRoots(u) && p.n > 0 && Kerneled(u, p.n, p.dir, xs, xl, after, yl, p.howmany, Ones(u))
    ensures Solved(u, p, xs, xl, after, yl)
  {
    hide Layout.At;
    forall h, k {:trigger yl.At(h, k)} | 0 <= h < p.howmany && 0 <= k < p.n && 0 <= yl.At(h, k) < |after|
      ensures after[yl.At(h, k)] == Dft(u, p.n, p.dir, Column(u, xs, xl, h), k)
    {
      KernelOfOnes(u, p.n, p.dir, Column(u, xs, xl, h), k);
    }
  }

  lemma SingleSolved<T(!new)>(u: Roots<T>, p: Problem, perm: seq<int>, rev: seq<int>, bfft: seq<T>, xs: seq<T>, xl: Layout,
                              before: seq<T>, after: seq<T>, x0: T, sum: T, ys: seq<T>, yl: Layout)
    requires IsRoots(u) && Solvable(u, p) && p.n > 2 && p.howmany == 1 && Divides(p.n - 1, u.order)
    requires RaderTables(p.n, perm, rev) && RaderSpectrum(u, p.n, p.dir, perm, bfft) && |before| >= p.n - 1
    requires ColumnPacked(before, 1, 0, p.n - 1, perm, Inputs(u, xs, xl, Ones(u))(0))
    requires Convolved(u, p.n - 1, 1, bfft, before, after)
    requires x0 == Inputs(u, xs, xl, Ones(u))(0)(0)
    requires sum == u.ring.add(x0, Sum(u.ring, p.n - 1, Packed(Inputs(u, xs, xl, Ones(u))(0), perm)))
    requires forall v {:trigger yl.At(0, v)} :: 0 <= v < p.n && 0 <= yl.At(0, v) < |ys| ==>
               ys[yl.At(0, v)] == Unpacked(u, after, 1, 0, x0, sum, rev, v)
    ensures Solved(u, p, xs, xl, ys, yl)
  {
    hide Layout.At, RaderTables, RaderSpectrum, Divides, IsRoots, Unpacked, KernelValue, Dft, ColumnPacked, Inputs, Convolved, Ones;
    var x := Inputs(u, xs, xl, Ones(u))(0);
    forall h, v {:trigger yl.At(h, v)} | 0 <= h < 1 && 0 <= v < p.n && 0 <= yl.At(h, v) < |ys|
      ensures ys[yl.At(h, v)] == KernelValue(u, p.n, p.dir, Column(u, xs, xl, h), Ones(u)(h), v)
    {
      RaderMember(u, p.n, p.dir, perm, rev, bfft, 1, 0, x, before, after, v);
      InputColumn(u, xs, xl, Ones(u), 0);
      WeightedDft(u, p.n, p.dir, Column(u, xs, xl, 0), Ones(u)(0), v);
    }
    KerneledSolves(u, p, xs, xl, ys, yl);
  }

  lemma SingleTouched<T(!new)>(yl: Layout, n: int, before: seq<T>, after: seq<T>)
    requires |before| == |after|
    requires forall i :: 0 <= i < |before| && (forall v :: 0 <= v < n ==> yl.At(0, v) != i) ==> after[i] == before[i]
    ensures OnlyTouched(yl, 1, n, before, after)
  {
    hide Layout.At;
    forall i | 0 <= i < |before| && !Touches(yl, 1, n, i) ensures after[i] == before[i] {
      assert forall v {:trigger yl.At(0, v)} :: 0 <= v < n ==> yl.At(0, v) != i;
    }
  }

  // ----- one batch member at a time

  lemma LoopStart<T(!new)>(u: Roots<T>, p: Problem, xs: seq<T>, xl: Layout, ys: seq<T>, yl: Layout)
    requires p.n >= 0
    ensures Solved(u, p.(howmany := 0), xs, xl, ys, yl) && OnlyTouched(yl, 0, p.n, ys, ys)
  {
  }

  lemma MemberAddresses(p: Problem, i: int, xo: int, yo: int, k: int)
    ensures Member(p).In(xo + i * p.idist).At(0, k) == p.In(xo).At(i, k)
    ensures Member(p).Out(yo + i * p.odist).At(0, k) == p.Out(yo).At(i, k)
  {
  }

  lemma MemberRoom(p: Problem, i: int, xo: int, xlen: int, yo: int, ylen: int, inPlace: bool)
    requires 0 <= i < p.howmany && Room(p, p.In(xo), xlen, p.Out(yo), ylen)
    requires inPlace ==> SameAddresses(p.In(xo), p.Out(yo), p.howmany, p.n)
    ensures Room(Member(p), Member(p).In(xo + i * p.idist), xlen, Member(p).Out(yo + i * p.odist), ylen)
    ensures inPlace ==> SameAddresses(Member(p).In(xo + i * p.idist), Member(p).Out(yo + i * p.odist), 1, p.n)
  {
    var xl, yl, xi, yi := p.In(xo), p.Out(yo), Member(p).In(xo + i * p.idist), Member(p).Out(yo + i * p.odist);
    forall k ensures xi.At(0, k) == xl.At(i, k) && yi.At(0, k) == yl.At(i, k) {
      MemberAddresses(p, i, xo, yo, k);
    }
    hide Layout.At;
    assert forall h, k {:trigger xi.At(h, k)} :: 0 <= h < 1 ==> xi.At(h, k) == xl.At(i, k);
    assert forall h, k {:trigger yi.At(h, k)} :: 0 <= h < 1 ==> yi.At(h, k) == yl.At(i, k);
  }

  /** The inputs of member i are still there after the members before it are done. */
  lemma MemberUntouched<T(!new)>(p: Problem, i: int, xs: seq<T>, now: seq<T>, xl: Layout, yl: Layout, inPlace: bool)
    requires 0 <= i < p.howmany && Within(xl, p.howmany, p.n, |xs|)
    requires Separate(yl, p.howmany, p.n)
    requires if inPlace then SameAddresses(xl, yl, p.howmany, p.n) && OnlyTouched(yl, i, p.n, xs, now) else now == xs
    ensures |now| == |xs|
    ensures forall j {:trigger xl.At(i, j)} :: 0 <= j < p.n ==> 0 <= xl.At(i, j) < |xs| && now[xl.At(i, j)] == xs[xl.At(i, j)]
  {
    hide Layout.At;
  }

  lemma LoopStep<T(!new)>(u: Roots<T>, p: Problem, i: int, xs: seq<T>, now: seq<T>, xo: int,
                          ys: seq<T>, before: seq<T>, after: seq<T>, yo: int)
    requires 0 <= i < p.howmany && p.n >= 0 && Separate(p.Out(yo), p.howmany, p.n) && |now| == |xs|
    requires forall j {:trigger p.In(xo).At(i, j)} :: 0 <= j < p.n ==>
               0 <= p.In(xo).At(i, j) < |xs| && now[p.In(xo).At(i, j)] == xs[p.In(xo).At(i, j)]
    requires Solved(u, p.(howmany := i), xs, p.In(xo), before, p.Out(yo)) && OnlyTouched(p.Out(yo), i, p.n, ys, before)
    requires Solved(u, Member(p), now, Member(p).In(xo + i * p.idist), after, Member(p).Out(yo + i * p.odist))
    requires OnlyTouched(Member(p).Out(yo + i * p.odist), 1, p.n, before, after)
    ensures Solved(u, p.(howmany := i + 1), xs, p.In(xo), after, p.Out(yo)) && OnlyTouched(p.Out(yo), i + 1, p.n, ys, after)
  {
    var xi, yi := Member(p).In(xo + i * p.idist), Member(p).Out(yo + i * p.odist);
    forall k ensures xi.At(0, k) == p.In(xo).At(i, k) && yi.At(0, k) == p.Out(yo).At(i, k) {
      MemberAddresses(p, i, xo, yo, k);
    }
    hide Layout.At, Dft;
    var yl := p.Out(yo);
    forall h, k {:trigger yl.At(h, k)} | 0 <= h < i + 1 && 0 <= k < p.n && 0 <= yl.At(h, k) < |after|
      ensures after[yl.At(h, k)] == Dft(u, p.n, p.dir, Column(u, xs, p.In(xo), h), k)
    {
      if h == i {
        DftExt(u, p.n, p.dir, Column(u, now, xi, 0), Column(u, xs, p.In(xo), h), k);
        assert yi.At(0, k) == yl.At(h, k);
      } else {
        assert !Touches(yi, 1, p.n, yl.At(h, k));
      }
    }
    forall a | Touches(yi, 1, p.n, a) ensures Touches(yl, i + 1, p.n, a) {
      var k :| 0 <= k < p.n && yi.At(0, k) == a;
      assert yl.At(i, k) == a;
    }
  }

  method ExecuteRaderTwid<T(!new)>(u: Roots<T>, s: Scratch<T>, t: Twid<T>, x: array<T>, xo: int, y: array<T>, yo: int)
    requires IsRoots(u) && t.RaderTwid? && TwidSolves(u, t) && s.Valid()
    requires x != y && TwidRoom(t.tp, xo, x.Length, yo, y.Length)
    requires {x, y} !! s.Free() + {s.rader, s.bluestein}
    modifies s, s.Free(), y, s.rader, s.bluestein
    ensures TwidSolved(u, t.tp, old(x[..]), xo, y[..], yo)
    ensures TwidOnlyTouched(t.tp, yo, old(y[..]), y[..])
    ensures s.Kept()
    ensures s.rader == old(s.rader) || fresh(s.rader)
    ensures s.bluestein == old(s.bluestein)
    decreases TwidSize(t), 1
  {
    var p := t.tp;
    RaderTwidParts(u, t);
    hide Layout.At, TwidSolves, RaderTables, RaderSpectrum, Divides, ConvolutionPlans, IsRoots, Kerneled, Within, Separate,
         TwidSeparate, TwidSolved, TwidOnlyTouched, OnlyTouched, TableHolds, Size, TwidSize, TwidConvolves;
    ghost var xs, ys := x[..], y[..];
    var layout := TableLayout(1, 1, true);
    var tw := row => TableRow(u, t.table, layout, p.n, row);
    assert Factors(u, true, tw) by { RowFactors(u, t.table, layout, p.n, tw); }
    hide Factors, TableRow;
    var a := s.GetRader(u.ring.zero, (t.m + 2) * p.howmany0);
    TwidStart(u, p, xs, xo, ys, yo);
    for b := 0 to p.howmany1
      invariant s.Kept() && s.rader == a && s.bluestein == old(s.bluestein) && x[..] == xs
      invariant TwidSolved(u, p.(howmany1 := b), xs, xo, y[..], yo)
      invariant TwidOnlyTouched(p.(howmany1 := b), yo, ys, y[..])
    {
      ghost var before := y[..];
      CopyRoom(p, b, xo, x.Length, yo, y.Length);
      ConvolveRader(u, s, p.n, p.dir, p.howmany0, t.fwd, t.bwd, t.perm, t.rev, t.bfft, true, tw,
        x, p.In(xo, b), a, y, p.Out(yo, b));
      RaderFactors(u, p, t.table, tw);
      AddCopy(u, p, b, xs, xo, ys, before, y[..], yo, tw);
    }
  }

  method ExecuteBluesteinTwid<T(!new)>(u: Roots<T>, s: Scratch<T>, t: Twid<T>, x: array<T>, xo: int, y: array<T>, yo: int)
    requires IsRoots(u) && t.BluesteinTwid? && TwidSolves(u, t) && s.Valid()
    requires x != y && TwidRoom(t.tp, xo, x.Length, yo, y.Length)
    requires {x, y} !! s.Free() + {s.rader, s.bluestein}
    modifies s, s.Free(), y, s.rader, s.bluestein
    ensures TwidSolved(u, t.tp, old(x[..]), xo, y[..], yo)
    ensures TwidOnlyTouched(t.tp, yo, old(y[..]), y[..])
    ensures s.Kept()
    ensures s.rader == old(s.rader)
    ensures s.bluestein == old(s.bluestein) || fresh(s.bluestein)
    decreases TwidSize(t), 1
  {
    var p := t.tp;
    BluesteinTwidParts(u, t);
    hide Layout.At, TwidSolves, ChirpSpectrum, Divides, ConvolutionPlans, IsRoots, Kerneled, Within, Separate,
         TwidSeparate, TwidSolved, TwidOnlyTouched, OnlyTouched, TableHolds, Size, TwidSize, TwidConvolves;
    ghost var xs, ys := x[..], y[..];
    var tw := ChirpRows(u, t.table, p.n);
    assert ChirpFactors(u, true, tw) by { ChirpRowFactors(u, t.table, p.n); }
    hide ChirpFactors, ChirpRows;
    var a := s.GetBluestein(u.ring.zero, t.pad * p.howmany0);
    TwidStart(u, p, xs, xo, ys, yo);
    for b := 0 to p.howmany1
      invariant s.Kept() && s.bluestein == a && s.rader == old(s.rader) && x[..] == xs
      invariant TwidSolved(u, p.(howmany1 := b), xs, xo, y[..], yo)
      invariant TwidOnlyTouched(p.(howmany1 := b), yo, ys, y[..])
    {
      ghost var before := y[..];
      CopyRoom(p, b, xo, x.Length, yo, y.Length);
      ConvolveBluestein(u, s, p.n, p.dir, p.howmany0, t.pad, t.fwd, t.bwd, t.w, t.bfft, true, tw,
        x, p.In(xo, b), a, y, p.Out(yo, b));
      ChirpRowsHold(u, p, t.table);
      AddCopy(u, p, b, xs, xo, ys, before, y[..], yo, tw);
    }
  }

  // ----- one inner copy at a time

  lemma TwidStart<T(!new)>(u: Roots<T>, p: TwidProblem, xs: seq<T>, xo: int, ys: seq<T>, yo: int)
    requires p.n >= 0
    ensures TwidSolved(u, p.(howmany1 := 0), xs, xo, ys, yo) && TwidOnlyTouched(p.(howmany1 := 0), yo, ys, ys)
  {
  }

  lemma CopyRoom(p: TwidProblem, b: int, xo: int, xlen: int, yo: int, ylen: int)
    requires 0 <= b < p.howmany1 && TwidRoom(p, xo, xlen, yo, ylen)
    ensures Within(p.In(xo, b), p.howmany0, p.n, xlen) && Within(p.Out(yo, b), p.howmany0, p.n, ylen)
    ensures Separate(p.Out(yo, b), p.howmany0, p.n)
  {
    hide Layout.At;
    forall h, k, h', k' {:trigger p.Out(yo, b).At(h, k), p.Out(yo, b).At(h', k')}
      | 0 <= h < p.howmany0 && 0 <= k < p.n && 0 <= h' < p.howmany0 && 0 <= k' < p.n
        && p.Out(yo, b).At(h, k) == p.Out(yo, b).At(h', k')
      ensures h == h' && k == k'
    {
      assert p.Has(b, h, k) && p.Has(b, h', k');
    }
  }

  /** The rows hold the twiddle factors of every column. */
  ghost predicate RowsHold<T>(u: Roots<T>, p: TwidProblem, tw: int -> int -> T) {
    forall h, j {:trigger tw(h)(j)} :: 0 <= h < p.howmany0 && 0 <= j < p.n ==>
      tw(h)(j) == Twiddles(u, p.n * p.howmany0, p.dir, h)(j)
  }

  lemma FewerCopies<T(!new)>(u: Roots<T>, p: TwidProblem, m: int, xs: seq<T>, xo: int, after: seq<T>, yo: int, b: int)
    requires p.n >= 0
    ensures TwidSolvedAt(u, p.(howmany1 := m), xs, xo, after, yo, b) == TwidSolvedAt(u, p, xs, xo, after, yo, b)
  {
    var q := p.(howmany1 := m);
    assert q.In(xo, b) == p.In(xo, b) && q.Out(yo, b) == p.Out(yo, b);
    assert q.n == p.n && q.howmany0 == p.howmany0 && q.dir == p.dir;
    hide Layout.At, KernelValue, Twiddles;
  }

  lemma NewCopy<T(!new)>(u: Roots<T>, p: TwidProblem, b: int, xs: seq<T>, xo: int, after: seq<T>, yo: int, tw: int -> int -> T)
    requires p.n > 0 && RowsHold(u, p, tw)
    requires Kerneled(u, p.n, p.dir, xs, p.In(xo, b), after, p.Out(yo, b), p.howmany0, tw)
    ensures TwidSolvedAt(u, p, xs, xo, after, yo, b)
  {
    hide Layout.At, KernelValue, Twiddles;
    var xl, yl := p.In(xo, b), p.Out(yo, b);
    forall h, k {:trigger yl.At(h, k)} | 0 <= h < p.howmany0 && 0 <= k < p.n && 0 <= yl.At(h, k) < |after|
      ensures after[yl.At(h, k)] == KernelValue(u, p.n, p.dir, Column(u, xs, xl, h), Twiddles(u, p.n * p.howmany0, p.dir, h), k)
    {
      KernelExt(u, p.n, p.dir, Column(u, xs, xl, h), Column(u, xs, xl, h), tw(h), Twiddles(u, p.n * p.howmany0, p.dir, h), k);
    }
  }

  lemma OldCopy<T(!new)>(u: Roots<T>, p: TwidProblem, b: int, c: int, xs: seq<T>, xo: int, before: seq<T>, after: seq<T>, yo: int)
    requires p.n > 0 && TwidSeparate(p, yo) && 0 <= b < p.howmany1 && 0 <= c < p.howmany1 && b != c
    requires OnlyTouched(p.Out(yo, b), p.howmany0, p.n, before, after)
    requires TwidSolvedAt(u, p, xs, xo, before, yo, c)
    ensures TwidSolvedAt(u, p, xs, xo, after, yo, c)
  {
    hide Layout.At, KernelValue, Twiddles, TwidSeparate;
    var yl := p.Out(yo, c);
    forall h, k {:trigger yl.At(h, k)} | 0 <= h < p.howmany0 && 0 <= k < p.n && 0 <= yl.At(h, k) < |after|
      ensures after[yl.At(h, k)] == before[yl.At(h, k)]
    {
      OtherCopy(p, b, c, h, k, yo);
    }
  }

  lemma AddCopy<T(!new)>(u: Roots<T>, p: TwidProblem, b: int, xs: seq<T>, xo: int, ys: seq<T>, before: seq<T>, after: seq<T>,
                         yo: int, tw: int -> int -> T)
    requires p.n > 0 && 0 <= b < p.howmany1 && TwidSeparate(p, yo) && RowsHold(u, p, tw)
    requires TwidSolved(u, p.(howmany1 := b), xs, xo, before, yo) && TwidOnlyTouched(p.(howmany1 := b), yo, ys, before)
    requires Kerneled(u, p.n, p.dir, xs, p.In(xo, b), after, p.Out(yo, b), p.howmany0, tw)
    requires OnlyTouched(p.Out(yo, b), p.howmany0, p.n, before, after)
    ensures TwidSolved(u, p.(howmany1 := b + 1), xs, xo, after, yo) && TwidOnlyTouched(p.(howmany1 := b + 1), yo, ys, after)
  {
    var next := p.(howmany1 := b + 1);
    forall c | 0 <= c < b + 1 ensures TwidSolvedAt(u, next, xs, xo, after, yo, c) {
      if c == b {
        NewCopy(u, p, b, xs, xo, after, yo, tw);
      } else {
        FewerCopies(u, p, b, xs, xo, before, yo, c);
        OldCopy(u, p, b, c, xs, xo, before, after, yo);
      }
      FewerCopies(u, p, b + 1, xs, xo, after, yo, c);
    }
    TouchCopy(p, b, ys, before, after, yo);
  }

  lemma TouchCopy<T(!new)>(p: TwidProblem, b: int, ys: seq<T>, before: seq<T>, after: seq<T>, yo: int)
    requires 0 <= b && TwidOnlyTouched(p.(howmany1 := b), yo, ys, before)
    requires OnlyTouched(p.Out(yo, b), p.howmany0, p.n, before, after)
    ensures TwidOnlyTouched(p.(howmany1 := b + 1), yo, ys, after)
  {
    hide Touches;
    var q, r := p.(howmany1 := b), p.(howmany1 := b + 1);
    assert forall c {:trigger q.Out(yo, c)} {:trigger r.Out(yo, c)} {:trigger p.Out(yo, c)} ::
      p.Out(yo, c) == q.Out(yo, c) && p.Out(yo, c) == r.Out(yo, c);
    hide TwidProblem.Out;
    forall a | 0 <= a < |ys| && !TwidTouches(r, yo, a) ensures after[a] == ys[a] {
      assert !TwidTouches(q, yo, a) && !Touches(p.Out(yo, b), p.howmany0, p.n, a) by { Untouched(p, b, yo, a); }
    }
  }

  lemma Untouched(p: TwidProblem, b: int, yo: int, a: int)
    requires 0 <= b && !TwidTouches(p.(howmany1 := b + 1), yo, a)
    ensures !TwidTouches(p.(howmany1 := b), yo, a) && !Touches(p.Out(yo, b), p.howmany0, p.n, a)
  {
    hide Touches;
    var q, r := p.(howmany1 := b), p.(howmany1 := b + 1);
    assert forall c {:trigger q.Out(yo, c)} {:trigger r.Out(yo, c)} {:trigger p.Out(yo, c)} ::
      p.Out(yo, c) == q.Out(yo, c) && p.Out(yo, c) == r.Out(yo, c);
    hide TwidProblem.Out;
    assert forall c {:trigger r.Out(yo, c)} :: 0 <= c < b + 1 ==> !Touches(r.Out(yo, c), r.howmany0, r.n, a);
    assert r.Out(yo, b) == p.Out(yo, b);
  }

  lemma OtherCopy(p: TwidProblem, b: int, c: int, h: int, k: int, yo: int)
    requires TwidSeparate(p, yo) && p.Has(c, h, k) && 0 <= b < p.howmany1 && b != c
    ensures !Touches(p.Out(yo, b), p.howmany0, p.n, p.Out(yo, c).At(h, k))
  {
    hide Layout.At;
    forall h', k' {:trigger p.Out(yo, b).At(h', k')} | 0 <= h' < p.howmany0 && 0 <= k' < p.n
      ensures p.Out(yo, b).At(h', k') != p.Out(yo, c).At(h, k)
    {
      assert p.Has(b, h', k');
    }
  }

  lemma RowFactors<T(!new)>(u: Roots<T>, table: seq<T>, l: TableLayout, n: int, tw: int -> int -> T)
    requires forall row :: tw(row) == TableRow(u, table, l, n, row)
    ensures Factors(u, true, tw)
  {
  }

  lemma RaderFactors<T(!new)>(u: Roots<T>, p: TwidProblem, table: seq<T>, tw: int -> int -> T)
    requires IsRoots(u) && TwidSolvable(u, p) && TableHolds(u, p, TableLayout(1, 1, true), table)
    requires forall row :: tw(row) == TableRow(u, table, TableLayout(1, 1, true), p.n, row)
    ensures RowsHold(u, p, tw)
  {
    hide TableHolds, TableRow, Twiddles, IsRoots, Divides;
    forall h, j | 0 <= h < p.howmany0 && 0 <= j < p.n
      ensures tw(h)(j) == Twiddles(u, p.n * p.howmany0, p.dir, h)(j)
    {
      TableRowHolds(u, p, TableLayout(1, 1, true), table, h, j);
    }
  }

  /** The rows Bluestein's packing reads: no factors for column 0. */
  function ChirpRows<T>(u: Roots<T>, table: seq<T>, n: int): int -> int -> T {
    h => if h == 0 then Const(u.ring.one) else TableRow(u, table, TableLayout(1, 1, false), n, h - 1)
  }

  lemma ChirpRow<T>(u: Roots<T>, table: seq<T>, n: int, h: int)
    ensures ChirpRows(u, table, n)(h) == if h == 0 then Const(u.ring.one) else TableRow(u, table, TableLayout(1, 1, false), n, h - 1)
  {
  }

  lemma ChirpRowFactors<T(!new)>(u: Roots<T>, table: seq<T>, n: int)
    ensures ChirpFactors(u, true, ChirpRows(u, table, n))
  {
    var tw := ChirpRows(u, table, n);
    forall h, j ensures j == 0 || h == 0 ==> tw(h)(j) == u.ring.one {
      ChirpRow(u, table, n, h);
    }
    hide ChirpRows;
  }

  lemma ChirpRowsHold<T(!new)>(u: Roots<T>, p: TwidProblem, table: seq<T>)
    requires IsRoots(u) && TwidSolvable(u, p) && TableHolds(u, p, TableLayout(1, 1, false), table)
    ensures RowsHold(u, p, ChirpRows(u, table, p.n))
  {
    hide ChirpRows, TableHolds, TableRow, Twiddles, IsRoots, Divides;
    forall h, j | 0 <= h < p.howmany0 && 0 <= j < p.n
      ensures ChirpRows(u, table, p.n)(h)(j) == Twiddles(u, p.n * p.howmany0, p.dir, h)(j)
    {
      ChirpRow(u, table, p.n, h);
      if h == 0 {
        FirstColumnTwiddles(u, p.n * p.howmany0, p.dir, j);
      } else {
        TableRowHolds(u, p, TableLayout(1, 1, false), table, h, j);
      }
    }
  }
}
