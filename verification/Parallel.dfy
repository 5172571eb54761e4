/** Splitting rows of work between threads, and twiddled stages executed by several threads. */
module Parallel {
  import opened Integers
  import opened Algebra
  import opened Roots
  import opened Transform
  import opened Memory
  import opened Twiddle
  import opened Plans
  import opened Execution

  datatype Split = Split(threads: int, workPerThread: int, totalWork: int, modifier: int, modifiedThreads: int,
                         interleavedRows: int)

  function MakeParallelSplit(dimension: nat, interleave: pos, maxThreads: pos): Split {
    if maxThreads == 1 || dimension == 0 then
      Split(1, dimension, dimension, 0, 1, 0)
    else
      BlockExists(dimension, interleave, 0);
      var work := RoundUpDiv(dimension, interleave);
      var threads := if maxThreads < work then maxThreads else work;
      var each := work / threads;
      Split(threads, each, dimension, 1, work - threads * each, interleave)
  }

  /** The first row of a thread and its number of rows. */
  function WorkDistribution(thread: int, s: Split): (int, int) {
    var units := s.workPerThread * thread + (if thread < s.modifiedThreads then thread * s.modifier else s.modifiedThreads);
    var each := if thread < s.modifiedThreads then s.workPerThread + s.modifier else s.workPerThread;
    var start := units * s.interleavedRows;
    (start, if thread == s.threads - 1 then s.totalWork - start else each * s.interleavedRows)
  }

  /** Even shares of units: the first extra threads get one more. */
  lemma Shares(units: pos, threads: pos, t: nat)
    requires threads <= units && t < threads
    ensures var each := units / threads; var extra := units - threads * each;
      && each >= 1 && 0 <= extra < threads
      && each * (t + 1) == each * t + each
      && each * t + (if t < extra then t else extra) <= units - 1
      && (t == threads - 1 ==> each * (t + 1) + extra == units)
  {
    var each := units / threads;
    var extra := units % threads;
    assert units == threads * each + extra;
    if each <= 0 { MulGrows(threads, each); }
    assert each * (threads - t) == each * threads - each * t;
    MulGrows(each, threads - t);
  }

  lemma ShareRows(v: pos, a: int, b: int, each: int)
    requires b == a + each
    ensures a * v + each * v == b * v
    ensures each >= 1 ==> each * v >= v
    ensures a >= 0 ==> a * v >= 0 && a * v % v == 0
  {
    if a >= 0 { ModUnique(a * v, v, a, 0); }
    MulGrows(v, each);
    assert b * v == a * v + each * v;
  }

  /** The threads' blocks of rows follow each other from row 0 to the end, start at multiples
      of the interleave and are empty only when there are no rows at all.
   */
  lemma Partition(dimension: nat, interleave: pos, maxThreads: pos, t: nat)
    requires t < MakeParallelSplit(dimension, interleave, maxThreads).threads
    ensures var s := MakeParallelSplit(dimension, interleave, maxThreads); var (start, work) := WorkDistribution(t, s);
      && 1 <= s.threads <= maxThreads
      && 0 <= start && start % interleave == 0
      && 0 <= work && start + work <= dimension && (dimension > 0 ==> work > 0)
      && (t == 0 ==> start == 0)
      && start + work == if t == s.threads - 1 then dimension else WorkDistribution(t + 1, s).0
  {
    var s := MakeParallelSplit(dimension, interleave, maxThreads);
    if maxThreads == 1 || dimension == 0 {
      ModUnique(0, interleave, 0, 0);
    } else {
      BlockExists(dimension, interleave, 0);
      var units := RoundUpDiv(dimension, interleave);
      Shares(units, s.threads, t);
      var a := s.workPerThread * t + if t < s.modifiedThreads then t else s.modifiedThreads;
      var each := if t < s.modifiedThreads then s.workPerThread + 1 else s.workPerThread;
      BlockExists(dimension, interleave, a);
      ShareRows(interleave, a, a + each, each);
      assert WorkDistribution(t, s).0 == a * interleave;
      if t + 1 < s.threads {
        Shares(units, s.threads, t + 1);
        BlockExists(dimension, interleave, a + each);
        assert WorkDistribution(t + 1, s).0 == (a + each) * interleave;
      }
    }
  }

  /** As many threads as allowed, unless there are fewer units of interleaved rows; every thread gets an
      even share of the units or one more, and only the last may have rows missing in its last unit.
   */
  lemma EvenShares(dimension: pos, interleave: pos, maxThreads: pos, t: nat) returns (units: nat)
    requires maxThreads > 1 && t < MakeParallelSplit(dimension, interleave, maxThreads).threads
    ensures var s := MakeParallelSplit(dimension, interleave, maxThreads); var work := WorkDistribution(t, s).1;
      && s.threads == (if maxThreads < RoundUpDiv(dimension, interleave) then maxThreads else RoundUpDiv(dimension, interleave))
      && RoundUpDiv(dimension, interleave) / s.threads <= units <= RoundUpDiv(dimension, interleave) / s.threads + 1
      && units * interleave - interleave < work <= units * interleave
      && (t < s.threads - 1 ==> work == units * interleave)
  {
    var s := MakeParallelSplit(dimension, interleave, maxThreads);
    BlockExists(dimension, interleave, 0);
    var all := RoundUpDiv(dimension, interleave);
    Shares(all, s.threads, t);
    units := if t < s.modifiedThreads then s.workPerThread + 1 else s.workPerThread;
    if t == s.threads - 1 {
      var a := s.workPerThread * t + if t < s.modifiedThreads then t else s.modifiedThreads;
      assert a + units == all;
      BlockExists(dimension, interleave, all - 1);
      BlockExists(dimension, interleave, all);
      ShareRows(interleave, a, all, units);
      ShareRows(interleave, all - 1, all, 1);
    }
  }

  lemma SomeThread(dimension: nat, interleave: pos, maxThreads: pos)
    ensures 1 <= MakeParallelSplit(dimension, interleave, maxThreads).threads <= maxThreads
  {
  }

  ghost predicate InBlock(row: int, t: int, s: Split) {
    var (start, work) := WorkDistribution(t, s);
    start <= row < start + work
  }

  /** Every row is in exactly one thread's block. */
  lemma Owner(dimension: nat, interleave: pos, maxThreads: pos, row: nat) returns (t: nat)
    requires row < dimension
    ensures var s := MakeParallelSplit(dimension, interleave, maxThreads);
      t < s.threads && InBlock(row, t, s) && forall t' :: 0 <= t' < s.threads && InBlock(row, t', s) ==> t' == t
  {
    var s := MakeParallelSplit(dimension, interleave, maxThreads);
    assert s.threads > 0;
    t := 0;
    Partition(dimension, interleave, maxThreads, 0);
    while row >= WorkDistribution(t, s).0 + WorkDistribution(t, s).1
      invariant t < s.threads && WorkDistribution(t, s).0 <= row
      decreases s.threads - t
    {
      Partition(dimension, interleave, maxThreads, t);
      t := t + 1;
    }
    forall t' | 0 <= t' < s.threads && InBlock(row, t', s) ensures t' == t {
      if t' < t { BlocksOrdered(dimension, interleave, maxThreads, t', t); }
      if t < t' { BlocksOrdered(dimension, interleave, maxThreads, t, t'); }
    }
  }

  lemma {:induction false} BlocksOrdered(dimension: nat, interleave: pos, maxThreads: pos, t: nat, t': nat)
    requires t < t' < MakeParallelSplit(dimension, interleave, maxThreads).threads
    ensures var s := MakeParallelSplit(dimension, interleave, maxThreads); var (start, work) := WorkDistribution(t, s);
      start + work <= WorkDistribution(t', s).0
    decreases t'
  {
    Partition(dimension, interleave, maxThreads, t' - 1);
    if t < t' - 1 { BlocksOrdered(dimension, interleave, maxThreads, t, t' - 1); }
  }

  // ----- twiddled stages on several threads

  /** Every thread runs. */
  ghost predicate AllThreads(s: Split, order: seq<nat>) { forall t: nat {:trigger t in order} :: t < s.threads <==> t in order }

  /** Every thread calls the kernel once for each of its rows. */
  ghost predicate AllCalls(s: Split, calls: seq<(nat, nat)>) {
    forall c: (nat, nat) {:trigger c in calls} :: c.0 < s.threads && c.1 < WorkDistribution(c.0, s).1 <==> c in calls
  }

  /** Columns lo..hi keep their values while other columns are written. */
  lemma KeepColumns<T(!new)>(u: Roots<T>, p: TwidProblem, lo: int, hi: int, a: int, b: int, xs: seq<T>, xo: int,
                             mid: seq<T>, after: seq<T>, yo: int)
    requires p.n >= 0 && TwidSeparate(p, yo) && (hi <= a || b <= lo)
    requires ColumnsSolved(u, p, lo, hi, xs, xo, mid, yo) && ColumnsTouched(p, a, b, mid, after, yo)
    ensures ColumnsSolved(u, p, lo, hi, xs, xo, after, yo)
  {
    hide Layout.At, KernelValue;
  }

  /** Writes to columns within 0..n are writes to some of those columns. */
  lemma TouchMore<T(!new)>(p: TwidProblem, a: int, b: int, before: seq<T>, mid: seq<T>, after: seq<T>, yo: int)
    requires 0 <= a <= b <= p.howmany0
    requires ColumnsTouched(p, 0, p.howmany0, before, mid, yo) && ColumnsTouched(p, a, b, mid, after, yo)
    ensures ColumnsTouched(p, 0, p.howmany0, before, after, yo)
  {
    hide Layout.At;
  }

  /** The columns of a thread are solved; column 0 is not part of the split. */
  ghost predicate ThreadDone<T(!new)>(u: Roots<T>, p: TwidProblem, s: Split, t: int, xs: seq<T>, xo: int, after: seq<T>, yo: int)
    requires p.n >= 0
  {
    var (start, work) := WorkDistribution(t, s);
    ColumnsSolved(u, p, start + 1, start + work + 1, xs, xo, after, yo)
  }

  lemma AllThreadsDone<T(!new)>(u: Roots<T>, p: TwidProblem, interleave: pos, maxThreads: pos, xs: seq<T>, xo: int,
                                after: seq<T>, yo: int)
    requires p.n >= 0 && p.howmany0 > 0
    requires ColumnsSolved(u, p, 0, 1, xs, xo, after, yo)
    requires var s := MakeParallelSplit(p.howmany0 - 1, interleave, maxThreads);
      forall t :: 0 <= t < s.threads ==> ThreadDone(u, p, s, t, xs, xo, after, yo)
    ensures ColumnsSolved(u, p, 0, p.howmany0, xs, xo, after, yo)
  {
    var s := MakeParallelSplit(p.howmany0 - 1, interleave, maxThreads);
    hide Layout.At, KernelValue, MakeParallelSplit, WorkDistribution;
    forall b, h, k {:trigger p.Out(yo, b).At(h, k)} | p.Has(b, h, k) && 0 <= p.Out(yo, b).At(h, k) < |after|
      ensures after[p.Out(yo, b).At(h, k)] ==
              KernelValue(u, p.n, p.dir, Column(u, xs, p.In(xo, b), h), Twiddles(u, p.n * p.howmany0, p.dir, h), k)
    {
      if h > 0 {
        var t := Owner(p.howmany0 - 1, interleave, maxThreads, h - 1);
        assert ThreadDone(u, p, s, t, xs, xo, after, yo);
      }
    }
  }

  /** A kernel given the table from the first row of a block reads the rows of that block. */
  function BlockRow<T>(u: Roots<T>, table: seq<T>, base: int, l: TableLayout, n: int, row: int): int -> T {
    j => if j == 0 then u.ring.one else Get(u.ring.zero, table, base + l.Slot(n, row, j))
  }

  /** Where a block that starts at a multiple of the interleave begins in the table. */
  lemma BlockSlot(l: TableLayout, n: int, start: nat, row: nat, j: int)
    requires start % l.interleave == 0
    ensures start * (n - 1) * l.slots + l.Slot(n, row, j) == l.Slot(n, start + row, j)
  {
    var v, m, c := l.interleave, n - 1, start / l.interleave;
    assert start == v * c;
    ModShift(row, v, c);
    ModUnique(start + row, v, c + row / v, row % v);
    BlockOffset(l.slots, v, m, c, row / v, j - 1, row % v);
  }

  lemma BlockOffset(slots: int, v: int, m: int, c: int, q: int, i: int, jj: int)
    ensures (v * c) * m * slots + slots * ((q * m + i) * v + jj) == slots * (((c + q) * m + i) * v + jj)
  {
    assert (c + q) * m == c * m + q * m;
    assert ((c + q) * m + i) * v == (c * m) * v + (q * m + i) * v;
    assert (v * c) * m == (c * m) * v;
  }

  lemma BlockRowHolds<T(!new)>(u: Roots<T>, p: TwidProblem, l: TableLayout, table: seq<T>, start: nat, row: nat, j: int)
    requires IsRoots(u) && p.n > 0 && p.howmany0 > 0 && Divides(p.n * p.howmany0, u.order)
    requires TableHolds(u, p, l, table) && !l.unityRow && start % l.interleave == 0
    requires start + row + 1 < p.howmany0 && 0 <= j < p.n
    ensures BlockRow(u, table, start * (p.n - 1) * l.slots, l, p.n, row)(j)
         == Twiddles(u, p.n * p.howmany0, p.dir, start + 1 + row)(j)
  {
    BlockSlot(l, p.n, start, row, j);
    TableRowHolds(u, p, l, table, start + 1 + row, j);
  }

  /** The untwiddled kernel call on column 0 of every inner copy. */
  method RunFirstColumn<T(!new)>(u: Roots<T>, p: TwidProblem, x: array<T>, xo: int, y: array<T>, yo: int)
    requires IsRoots(u) && p.n > 0 && p.howmany0 > 0 && p.howmany1 > 0 && Divides(p.n * p.howmany0, u.order)
    requires x != y && TwidRoom(p, xo, x.Length, yo, y.Length)
    modifies y
    ensures ColumnsSolved(u, p, 0, 1, x[..], xo, y[..], yo) && ColumnsTouched(p, 0, 1, old(y[..]), y[..], yo)
  {
    ghost var before := y[..];
    var xl, yl := Layout(xo, 1, p.istride), Layout(yo, 1, p.ostride);
    assert AddressesCopies(p, 0, xl, xo, yl, yo);
    CopiesRoom(p, 0, xl, xo, x.Length, yl, yo, y.Length);
    Kernel(u, p.n, p.dir, x, xl, y, yl, p.howmany1, _ => Const(u.ring.one));
    forall j ensures Twiddles(u, p.n * p.howmany0, p.dir, 0)(j) == Const(u.ring.one)(j) {
      FirstColumnTwiddles(u, p.n * p.howmany0, p.dir, j);
    }
    KernelCopies(u, p, 0, x[..], xl, xo, before, y[..], yl, yo, Const(u.ring.one));
  }

  /** One thread's kernel call, on the block of columns start + 1 .. start + work. */
  method RunBlock<T(!new)>(u: Roots<T>, t: Twid<T>, start: nat, work: nat, x: array<T>, xo: int, y: array<T>, yo: int)
    requires IsRoots(u) && t.AbTwid? && TwidSolves(u, t)
    requires x != y && TwidRoom(t.tp, xo, x.Length, yo, y.Length)
    requires start % t.layout.interleave == 0 && start + work + 1 <= t.tp.howmany0
    modifies y
    ensures ColumnsSolved(u, t.tp, start + 1, start + work + 1, x[..], xo, y[..], yo)
    ensures ColumnsTouched(t.tp, start + 1, start + work + 1, old(y[..]), y[..], yo)
  {
    var AbTwid(p, l, table) := t;
    ghost var before := y[..];
    var c := start + 1;
    var xl, yl := Layout(xo + c * p.idist0, p.idist0, p.istride), Layout(yo + c * p.odist0, p.odist0, p.ostride);
    var base := start * (p.n - 1) * l.slots;
    var tw := row => BlockRow(u, table, base, l, p.n, row);
    BlockAddresses(p, c, c + work, xl, xo, yl, yo);
    ColumnRoom(p, c, c + work, xl, xo, x.Length, yl, yo, y.Length);
    Kernel(u, p.n, p.dir, x, xl, y, yl, work, tw);
    forall h, j | 0 <= h < work && 0 <= j < p.n ensures tw(h)(j) == Twiddles(u, p.n * p.howmany0, p.dir, c + h)(j) {
      BlockRowHolds(u, p, l, table, start, h, j);
    }
    KernelColumns(u, p, c, c + work, x[..], xl, xo, before, y[..], yl, yo, tw);
  }

  lemma BlockAddresses(p: TwidProblem, lo: int, hi: int, xl: Layout, xo: int, yl: Layout, yo: int)
    requires xl == Layout(xo + lo * p.idist0, p.idist0, p.istride) && yl == Layout(yo + lo * p.odist0, p.odist0, p.ostride)
    ensures AddressesColumns(p, 0, lo, hi, xl, xo, yl, yo)
  {
  }

  /** What one thread wrote stays when the same or another thread writes its block. */
  lemma KeepThread<T(!new)>(u: Roots<T>, p: TwidProblem, v: pos, maxThreads: pos, t: nat, t': nat, xs: seq<T>, xo: int,
                            mid: seq<T>, after: seq<T>, yo: int)
    requires p.n >= 0 && p.howmany0 > 0 && TwidSeparate(p, yo)
    requires var s := MakeParallelSplit(p.howmany0 - 1, v, maxThreads); var (start, work) := WorkDistribution(t, s);
      && t < s.threads && t' < s.threads
      && ThreadDone(u, p, s, t', xs, xo, mid, yo)
      && ThreadDone(u, p, s, t, xs, xo, after, yo)
      && ColumnsTouched(p, start + 1, start + work + 1, mid, after, yo)
    ensures ThreadDone(u, p, MakeParallelSplit(p.howmany0 - 1, v, maxThreads), t', xs, xo, after, yo)
  {
    hide ColumnsSolved, ColumnsTouched, TwidSeparate, MakeParallelSplit, WorkDistribution;
    var s := MakeParallelSplit(p.howmany0 - 1, v, maxThreads);
    var (start, work) := WorkDistribution(t, s);
    var (a, n) := WorkDistribution(t', s);
    if t' < t {
      BlocksOrdered(p.howmany0 - 1, v, maxThreads, t', t);
      KeepColumns(u, p, a + 1, a + n + 1, start + 1, start + work + 1, xs, xo, mid, after, yo);
    } else if t < t' {
      BlocksOrdered(p.howmany0 - 1, v, maxThreads, t, t');
      KeepColumns(u, p, a + 1, a + n + 1, start + 1, start + work + 1, xs, xo, mid, after, yo);
    }
  }

  /** Column 0 and the given threads are done, and nothing but columns of the batch was written. */
  ghost predicate Progress<T(!new)>(u: Roots<T>, p: TwidProblem, s: Split, done: seq<nat>, xs: seq<T>, xo: int,
                                    before: seq<T>, after: seq<T>, yo: int)
    requires p.n >= 0
  {
    && ColumnsSolved(u, p, 0, 1, xs, xo, after, yo)
    && (forall t :: t in done ==> ThreadDone(u, p, s, t, xs, xo, after, yo))
    && ColumnsTouched(p, 0, p.howmany0, before, after, yo)
  }

  lemma MoreProgress<T(!new)>(u: Roots<T>, p: TwidProblem, v: pos, maxThreads: pos, done: seq<nat>, t: nat, xs: seq<T>, xo: int,
                              before: seq<T>, mid: seq<T>, after: seq<T>, yo: int)
    requires p.n >= 0 && p.howmany0 > 0 && TwidSeparate(p, yo)
    requires var s := MakeParallelSplit(p.howmany0 - 1, v, maxThreads); var (start, work) := WorkDistribution(t, s);
      && t < s.threads && (forall t' :: t' in done ==> t' < s.threads)
      && Progress(u, p, s, done, xs, xo, before, mid, yo)
      && ThreadDone(u, p, s, t, xs, xo, after, yo)
      && ColumnsTouched(p, start + 1, start + work + 1, mid, after, yo)
    ensures Progress(u, p, MakeParallelSplit(p.howmany0 - 1, v, maxThreads), done + [t], xs, xo, before, after, yo)
  {
    hide ColumnsSolved, ColumnsTouched, TwidSeparate, MakeParallelSplit, WorkDistribution, ThreadDone;
    var s := MakeParallelSplit(p.howmany0 - 1, v, maxThreads);
    var (start, work) := WorkDistribution(t, s);
    Partition(p.howmany0 - 1, v, maxThreads, t);
    KeepColumns(u, p, 0, 1, start + 1, start + work + 1, xs, xo, mid, after, yo);
    TouchMore(p, start + 1, start + work + 1, before, mid, after, yo);
    forall t' | t' in done ensures ThreadDone(u, p, s, t', xs, xo, after, yo) {
      KeepThread(u, p, v, maxThreads, t, t', xs, xo, mid, after, yo);
    }
  }

  lemma StartTouched<T(!new)>(p: TwidProblem, before: seq<T>, after: seq<T>, yo: int)
    requires p.howmany0 > 0 && ColumnsTouched(p, 0, 1, before, after, yo)
    ensures ColumnsTouched(p, 0, p.howmany0, before, after, yo)
  {
    hide Layout.At;
  }

  /** What one thread does. */
  method RunThread<T(!new)>(u: Roots<T>, t: Twid<T>, maxThreads: pos, thread: nat, x: array<T>, xo: int, y: array<T>, yo: int,
                            ghost done: seq<nat>, ghost before: seq<T>)
    requires IsRoots(u) && t.AbTwid? && TwidSolves(u, t)
    requires x != y && TwidRoom(t.tp, xo, x.Length, yo, y.Length)
    requires var s := MakeParallelSplit(t.tp.howmany0 - 1, t.layout.interleave, maxThreads);
      thread < s.threads && (forall t' :: t' in done ==> t' < s.threads) && Progress(u, t.tp, s, done, x[..], xo, before, y[..], yo)
    modifies y
    ensures Progress(u, t.tp, MakeParallelSplit(t.tp.howmany0 - 1, t.layout.interleave, maxThreads), done + [thread],
                     x[..], xo, before, y[..], yo)
  {
    hide TwidRoom, ColumnsSolved, ColumnsTouched, MakeParallelSplit, WorkDistribution, IsRoots, Progress;
    var p, v := t.tp, t.layout.interleave;
    var s := MakeParallelSplit(p.howmany0 - 1, v, maxThreads);
    ghost var mid, xs := y[..], x[..];
    var (start, work) := WorkDistribution(thread, s);
    Partition(p.howmany0 - 1, v, maxThreads, thread);
    assert TwidSeparate(p, yo) by { RoomSeparate(p, xo, x.Length, yo, y.Length); }
    RunBlock(u, t, start, work, x, xo, y, yo);
    hide TwidSolves, TwidSeparate;
    assert x[..] == xs;
    MoreProgress(u, p, v, maxThreads, done, thread, xs, xo, before, mid, y[..], yo);
  }

  lemma RoomSeparate(p: TwidProblem, xo: int, xlen: int, yo: int, ylen: int)
    requires TwidRoom(p, xo, xlen, yo, ylen)
    ensures TwidSeparate(p, yo)
  {
  }

  lemma TwidSolvesPositive<T(!new)>(u: Roots<T>, t: Twid<T>)
    requires TwidSolves(u, t)
    ensures t.tp.n > 1 && t.tp.howmany0 > 0 && t.tp.howmany1 > 0 && Divides(t.tp.n * t.tp.howmany0, u.order)
  {
  }

  /** The threads run in any order; the result is the same as on one thread. */
  method ExecuteAbThreaded<T(!new)>(u: Roots<T>, t: Twid<T>, maxThreads: pos, order: seq<nat>,
                                    x: array<T>, xo: int, y: array<T>, yo: int)
    requires IsRoots(u) && t.AbTwid? && TwidSolves(u, t)
    requires x != y && TwidRoom(t.tp, xo, x.Length, yo, y.Length)
    requires AllThreads(MakeParallelSplit(t.tp.howmany0 - 1, t.layout.interleave, maxThreads), order)
    modifies y
    ensures TwidSolved(u, t.tp, x[..], xo, y[..], yo)
    ensures TwidOnlyTouched(t.tp, yo, old(y[..]), y[..])
  {
    hide TwidSolves, TwidRoom, ColumnsSolved, ColumnsTouched, TwidSeparate, MakeParallelSplit, TwidSolved, TwidOnlyTouched,
         IsRoots;
    TwidSolvesPositive(u, t);
    var p, v := t.tp, t.layout.interleave;
    ghost var s := MakeParallelSplit(p.howmany0 - 1, v, maxThreads);
    ghost var before, xs := y[..], x[..];
    RunFirstColumn(u, p, x, xo, y, yo);
    StartTouched(p, before, y[..], yo);
    assert x[..] == xs;
    assert Progress(u, p, s, order[..0], xs, xo, before, y[..], yo);
    for q := 0 to |order|
      invariant Progress(u, p, s, order[..q], xs, xo, before, y[..], yo)
    {
      hide Progress;
      assert x[..] == xs;
      assert order[q] in order && forall t' :: t' in order[..q] ==> t' in order;
      assert order[..q + 1] == order[..q] + [order[q]];
      RunThread(u, t, maxThreads, order[q], x, xo, y, yo, order[..q], before);
      assert x[..] == xs;
    }
    assert order[..|order|] == order && x[..] == xs;
    AllThreadsDone(u, p, v, maxThreads, xs, xo, y[..], yo);
    AllColumns(u, p, xs, xo, before, y[..], yo);
  }

  // ----- internal levels: one kernel call per column

  ghost predicate RowsProgress<T(!new)>(u: Roots<T>, p: TwidProblem, done: set<int>, xs: seq<T>, xo: int,
                                        before: seq<T>, after: seq<T>, yo: int)
    requires p.n >= 0
  {
    && (forall h {:trigger h in done} :: h in done ==> ColumnsSolved(u, p, h, h + 1, xs, xo, after, yo))
    && ColumnsTouched(p, 0, p.howmany0, before, after, yo)
  }

  lemma MoreRows<T(!new)>(u: Roots<T>, p: TwidProblem, done: set<int>, h: int, xs: seq<T>, xo: int,
                          before: seq<T>, mid: seq<T>, after: seq<T>, yo: int)
    requires p.n >= 0 && 0 <= h < p.howmany0 && TwidSeparate(p, yo)
    requires RowsProgress(u, p, done, xs, xo, before, mid, yo)
    requires ColumnsSolved(u, p, h, h + 1, xs, xo, after, yo) && ColumnsTouched(p, h, h + 1, mid, after, yo)
    ensures RowsProgress(u, p, done + {h}, xs, xo, before, after, yo)
  {
    hide ColumnsSolved, ColumnsTouched, TwidSeparate;
    TouchMore(p, h, h + 1, before, mid, after, yo);
    forall i | i in done ensures ColumnsSolved(u, p, i, i + 1, xs, xo, after, yo) {
      if i != h { KeepColumns(u, p, i, i + 1, h, h + 1, xs, xo, mid, after, yo); }
    }
  }

  lemma AllRowsDone<T(!new)>(u: Roots<T>, p: TwidProblem, done: set<int>, xs: seq<T>, xo: int,
                             before: seq<T>, after: seq<T>, yo: int)
    requires p.n >= 0 && forall h :: 0 <= h < p.howmany0 ==> h in done
    requires RowsProgress(u, p, done, xs, xo, before, after, yo)
    ensures TwidSolved(u, p, xs, xo, after, yo) && TwidOnlyTouched(p, yo, before, after)
  {
    hide Layout.At, KernelValue;
    assert ColumnsSolved(u, p, 0, p.howmany0, xs, xo, after, yo) by {
      forall b, h, k {:trigger p.Out(yo, b).At(h, k)} | p.Has(b, h, k) && 0 <= p.Out(yo, b).At(h, k) < |after|
        ensures after[p.Out(yo, b).At(h, k)] ==
                KernelValue(u, p.n, p.dir, Column(u, xs, p.In(xo, b), h), Twiddles(u, p.n * p.howmany0, p.dir, h), k)
      {
        assert h in done;
      }
    }
    hide ColumnsSolved, ColumnsTouched;
    AllColumns(u, p, xs, xo, before, after, yo);
  }

  /** The kernel call on column h >= 1 of every inner copy. */
  method RunColumn<T(!new)>(u: Roots<T>, t: Twid<T>, h: nat, x: array<T>, xo: int, y: array<T>, yo: int)
    requires IsRoots(u) && t.AcTwid? && TwidSolves(u, t)
    requires x != y && TwidRoom(t.tp, xo, x.Length, yo, y.Length) && 1 <= h < t.tp.howmany0
    modifies y
    ensures ColumnsSolved(u, t.tp, h, h + 1, x[..], xo, y[..], yo)
    ensures ColumnsTouched(t.tp, h, h + 1, old(y[..]), y[..], yo)
  {
    var AcTwid(p, l, table) := t;
    ghost var before := y[..];
    var offset := (h - 1) * l.slots * (p.n - 1);
    var row := RowFrom(u, table, offset, l.slots);
    var xl, yl := Layout(xo + h * p.idist0, 1, p.istride), Layout(yo + h * p.odist0, 1, p.ostride);
    assert AddressesCopies(p, h, xl, xo, yl, yo);
    CopiesRoom(p, h, xl, xo, x.Length, yl, yo, y.Length);
    Kernel(u, p.n, p.dir, x, xl, y, yl, p.howmany1, _ => row);
    forall j | 0 <= j < p.n ensures row(j) == Twiddles(u, p.n * p.howmany0, p.dir, h)(j) {
      RowFromHolds(u, p, l, table, h, j);
    }
    KernelCopies(u, p, h, x[..], xl, xo, before, y[..], yl, yo, row);
  }

  /** One call of one thread. */
  method RunCall<T(!new)>(u: Roots<T>, t: Twid<T>, maxThreads: pos, c: (nat, nat), x: array<T>, xo: int, y: array<T>, yo: int,
                          ghost done: set<int>, ghost before: seq<T>)
    requires IsRoots(u) && t.AcTwid? && TwidSolves(u, t) && x != y && TwidRoom(t.tp, xo, x.Length, yo, y.Length)
    requires var s := MakeParallelSplit(t.tp.howmany0 - 1, 1, maxThreads); c.0 < s.threads && c.1 < WorkDistribution(c.0, s).1
    requires RowsProgress(u, t.tp, done, x[..], xo, before, y[..], yo)
    modifies y
    ensures RowsProgress(u, t.tp, done + {WorkDistribution(c.0, MakeParallelSplit(t.tp.howmany0 - 1, 1, maxThreads)).0 + c.1 + 1},
                         x[..], xo, before, y[..], yo)
  {
    hide TwidSolves, TwidRoom, ColumnsSolved, ColumnsTouched, TwidSeparate, MakeParallelSplit, IsRoots, WorkDistribution,
         RowsProgress;
    TwidSolvesPositive(u, t);
    RoomSeparate(t.tp, xo, x.Length, yo, y.Length);
    ghost var mid, xs := y[..], x[..];
    var (start, work) := WorkDistribution(c.0, MakeParallelSplit(t.tp.howmany0 - 1, 1, maxThreads));
    Partition(t.tp.howmany0 - 1, 1, maxThreads, c.0);
    var h := start + c.1 + 1;
    RunColumn(u, t, h, x, xo, y, yo);
    assert x[..] == xs;
    MoreRows(u, t.tp, done, h, xs, xo, before, mid, y[..], yo);
  }

  /** Every column is some thread's call. */
  lemma CallsCover(rows: nat, maxThreads: pos, calls: seq<(nat, nat)>, done: set<int>)
    requires AllCalls(MakeParallelSplit(rows, 1, maxThreads), calls) && 0 in done
    requires forall c {:trigger c in calls} :: c in calls ==>
               WorkDistribution(c.0, MakeParallelSplit(rows, 1, maxThreads)).0 + c.1 + 1 in done
    ensures forall h :: 0 <= h < rows + 1 ==> h in done
  {
    hide MakeParallelSplit, WorkDistribution;
    var s := MakeParallelSplit(rows, 1, maxThreads);
    forall h | 0 < h < rows + 1 ensures h in done {
      var thread := Owner(rows, 1, maxThreads, h - 1);
      Partition(rows, 1, maxThreads, thread);
      var c := (thread, h - 1 - WorkDistribution(thread, s).0);
      assert c in calls;
    }
  }

  /** Each thread calls the kernel once for each of its rows; the calls of different threads
      happen in any order, and the result is the same as on one thread.
   */
  method ExecuteAcThreaded<T(!new)>(u: Roots<T>, t: Twid<T>, maxThreads: pos, calls: seq<(nat, nat)>,
                                    x: array<T>, xo: int, y: array<T>, yo: int)
    requires IsRoots(u) && t.AcTwid? && TwidSolves(u, t)
    requires x != y && TwidRoom(t.tp, xo, x.Length, yo, y.Length)
    requires AllCalls(MakeParallelSplit(t.tp.howmany0 - 1, 1, maxThreads), calls)
    modifies y
    ensures TwidSolved(u, t.tp, x[..], xo, y[..], yo)
    ensures TwidOnlyTouched(t.tp, yo, old(y[..]), y[..])
  {
    hide TwidSolves, TwidRoom, ColumnsSolved, ColumnsTouched, TwidSeparate, MakeParallelSplit, TwidSolved, TwidOnlyTouched,
         IsRoots, WorkDistribution, AllCalls;
    TwidSolvesPositive(u, t);
    var p := t.tp;
    var s := MakeParallelSplit(p.howmany0 - 1, 1, maxThreads);
    ghost var before, xs := y[..], x[..];
    RunFirstColumn(u, p, x, xo, y, yo);
    StartTouched(p, before, y[..], yo);
    assert x[..] == xs;
    ghost var done := {0};
    assert RowsProgress(u, p, done, xs, xo, before, y[..], yo);
    hide RowsProgress;
    for q := 0 to |calls|
      invariant RowsProgress(u, p, done, xs, xo, before, y[..], yo) && 0 in done
      invariant forall c {:trigger c in calls[..q]} :: c in calls[..q] ==> WorkDistribution(c.0, s).0 + c.1 + 1 in done
    {
      assert x[..] == xs;
      CallValid(s, calls, q);
      RunCall(u, t, maxThreads, calls[q], x, xo, y, yo, done, before);
      assert x[..] == xs;
      done := done + {WorkDistribution(calls[q].0, s).0 + calls[q].1 + 1};
      assert calls[..q + 1] == calls[..q] + [calls[q]];
    }
    assert calls[..|calls|] == calls && x[..] == xs;
    CallsCover(p.howmany0 - 1, maxThreads, calls, done);
    AllRowsDone(u, p, done, xs, xo, before, y[..], yo);
  }

  lemma CallValid(s: Split, calls: seq<(nat, nat)>, q: nat)
    requires AllCalls(s, calls) && q < |calls|
    ensures calls[q].0 < s.threads && calls[q].1 < WorkDistribution(calls[q].0, s).1
  {
    assert calls[q] in calls;
  }

  // ----- choosing between one thread and several

  /** Some order in which the threads run. Callers may only use that each runs. */
  method ThreadOrder(s: Split) returns (order: seq<nat>)
    requires s.threads >= 0
    ensures AllThreads(s, order)
  {
    order := [];
    for i := 0 to s.threads
      invariant forall j: nat {:trigger j in order} :: j < i <==> j in order
    {
      order := [i] + order;
    }
  }

  /** Some order of the kernel calls of all threads. */
  method CallOrder(s: Split) returns (calls: seq<(nat, nat)>)
    requires s.threads >= 0
    ensures AllCalls(s, calls)
  {
    hide WorkDistribution;
    calls := [];
    for t := 0 to s.threads
      invariant forall c: (nat, nat) {:trigger c in calls} :: c.0 < t && c.1 < WorkDistribution(c.0, s).1 <==> c in calls
    {
      var i := 0;
      while i < WorkDistribution(t, s).1
        invariant 0 <= i && (i <= WorkDistribution(t, s).1 || i == 0)
        invariant forall c: (nat, nat) {:trigger c in calls} ::
          (c.0 < t && c.1 < WorkDistribution(c.0, s).1) || (c.0 == t && c.1 < i) <==> c in calls
      {
        calls := [(t, i)] + calls;
        i := i + 1;
      }
    }
  }

  const PARALLEL_THRESHOLD := 10000

  /** A twiddled level of a length-n transform: on several threads when n is large. */
  method ExecuteLevel<T(!new)>(u: Roots<T>, n: int, maxThreads: pos, t: Twid<T>, x: array<T>, xo: int, y: array<T>, yo: int)
    requires IsRoots(u) && (t.AbTwid? || t.AcTwid?) && TwidSolves(u, t)
    requires x != y && TwidRoom(t.tp, xo, x.Length, yo, y.Length)
    modifies y
    ensures TwidSolved(u, t.tp, x[..], xo, y[..], yo)
    ensures TwidOnlyTouched(t.tp, yo, old(y[..]), y[..])
  {
    hide TwidRoom, TwidSolves, TwidSolved, TwidOnlyTouched, IsRoots, WorkDistribution, AllThreads, AllCalls, MakeParallelSplit;
    TwidSolvesPositive(u, t);
    if n < PARALLEL_THRESHOLD {
      if t.AbTwid? { ExecuteAb(u, t, x, xo, y, yo); } else { ExecuteAc(u, t, x, xo, y, yo); }
    } else if t.AbTwid? {
      var s := MakeParallelSplit(t.tp.howmany0 - 1, t.layout.interleave, maxThreads);
      SomeThread(t.tp.howmany0 - 1, t.layout.interleave, maxThreads);
      var order := ThreadOrder(s);
      ExecuteAbThreaded(u, t, maxThreads, order, x, xo, y, yo);
    } else {
      var s := MakeParallelSplit(t.tp.howmany0 - 1, 1, maxThreads);
      SomeThread(t.tp.howmany0 - 1, 1, maxThreads);
      var calls := CallOrder(s);
      ExecuteAcThreaded(u, t, maxThreads, calls, x, xo, y, yo);
    }
  }
}
