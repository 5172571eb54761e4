/** The tables that plan constructors compute. */
module Tables {
  import opened Integers
  import opened Algebra
  import opened Roots
  import opened Transform
  import opened Memory
  import opened Twiddle
  import opened NumberTheory
  import opened Generator
  import opened Rader
  import opened Bluestein
  import opened Plans
  import opened ScratchMemory
  import opened Execution

  /** The problem of transforming a table of length m in place. */
  function TableProblem(m: int): Problem { Problem(m, 1, 1, 1, 0, 0, -1) }

  function Element<T>(z: T, s: seq<T>): int -> T { k => Get(z, s, k) }

  /** Replaces a table by its forward transform. */
  method TransformTable<T(!new)>(u: Roots<T>, s: Scratch<T>, plan: Plan<T>, b: array<T>)
    requires IsRoots(u) && b.Length > 0 && Solves(u, plan, TableProblem(b.Length)) && !Convolves(plan)
    requires s.Valid() && b !in s.Free()
    modifies s, s.Free(), b
    ensures forall k :: 0 <= k < b.Length ==> b[k] == Dft(u, b.Length, -1, Element(u.ring.zero, old(b[..])), k)
    ensures s.Kept() && s.rader == old(s.rader) && s.bluestein == old(s.bluestein)
  {
    var p := TableProblem(b.Length);
    ghost var bs := b[..];
    TableAddresses(p, b.Length);
    hide Layout.At, Solves, IsRoots, Convolves;
    Execute(u, s, plan, p, b, 0, b, 0);
    hide Solved, OnlyTouched;
    forall k | 0 <= k < b.Length ensures b[k] == Dft(u, b.Length, -1, Element(u.ring.zero, bs), k) {
      TableElement(u, p, bs, b[..], k);
    }
  }

  lemma TableAddresses(p: Problem, m: int)
    requires p == TableProblem(m)
    ensures forall h, k {:trigger p.In(0).At(h, k)} :: 0 <= h < 1 ==> p.In(0).At(h, k) == k
    ensures forall h, k {:trigger p.Out(0).At(h, k)} :: 0 <= h < 1 ==> p.Out(0).At(h, k) == k
  {
  }

  lemma TableElement<T(!new)>(u: Roots<T>, p: Problem, before: seq<T>, after: seq<T>, k: int)
    requires p == TableProblem(|before|) && |after| == |before| > k >= 0
    requires Solved(u, p, before, p.In(0), after, p.Out(0))
    ensures after[k] == Dft(u, |before|, -1, Element(u.ring.zero, before), k)
  {
    TableAddresses(p, |before|);
    hide Layout.At;
    assert p.Out(0).At(0, k) == k;
    DftExt(u, |before|, -1, Column(u, before, p.In(0), 0), Element(u.ring.zero, before), k);
  }

  method PrepareRaderKernel<T(!new)>(u: Roots<T>, z: T, n: int, d: sign, perm: seq<int>, rev: seq<int>) returns (b: array<T>)
    requires n > 2 && RaderTables(n, perm, rev)
    ensures fresh(b) && b.Length == n - 1 && IsKernel(u, n, d, perm, Element(z, b[..]))
  {
    var m := n - 1;
    TablesInRange(n, perm, rev);
    hide RaderTables;
    b := new T[m](_ => z);
    for k := 0 to m
      invariant forall i {:trigger Negated(m, i)} :: 0 <= i < k ==>
        0 <= Negated(m, i) < m && b[Negated(m, i)] == u.ring.mul(u.w(n, d * perm[i]), u.recip(m))
    {
      var t := (m - k) % m;
      NegatedIndices(m, k);
      hide Negated;
      b[t] := u.ring.mul(u.w(n, d * perm[k]), u.recip(m));
    }
    KernelStored(u, z, n, d, perm, b[..]);
  }

  /** Position (m - k) mod m of the kernel. */
  function Negated(m: pos, k: int): int { Mod(m - k, m) }

  lemma NegatedIndices(m: pos, k: int)
    requires 0 <= k < m
    ensures 0 <= Negated(m, k) < m && Negated(m, k) == (m - k) % m
    ensures forall i {:trigger Negated(m, i)} :: 0 <= i < k ==> Negated(m, i) != Negated(m, k)
  {
    NegateTwice(m, k);
    forall i {:trigger Negated(m, i)} | 0 <= i < k ensures Negated(m, i) != Negated(m, k) {
      NegateTwice(m, i);
    }
  }

  lemma KernelStored<T>(u: Roots<T>, z: T, n: int, d: sign, perm: seq<int>, b: seq<T>)
    requires n > 2 && |perm| == n - 1 && |b| == n - 1
    requires forall i {:trigger Negated(n - 1, i)} :: 0 <= i < n - 1 ==>
               0 <= Negated(n - 1, i) < n - 1 && b[Negated(n - 1, i)] == u.ring.mul(u.w(n, d * perm[i]), u.recip(n - 1))
    ensures IsKernel(u, n, d, perm, Element(z, b))
  {
    var kernel := Element(z, b);
    forall k | 0 <= k < n - 1
      ensures kernel(Mod(n - 1 - k, n - 1)) == u.ring.mul(u.w(n, d * perm[k]), u.recip(n - 1))
    {
      assert Negated(n - 1, k) == Mod(n - 1 - k, n - 1);
      hide Mod;
    }
  }

  method PrepareRader<T(!new)>(u: Roots<T>, s: Scratch<T>, n: int, d: sign, plan: Plan<T>)
    returns (perm: seq<int>, rev: seq<int>, bfft: seq<T>)
    requires IsRoots(u) && Prime(n) && n > 2 && Solves(u, plan, TableProblem(n - 1)) && !Convolves(plan) && s.Valid()
    modifies s, s.Free()
    ensures RaderTables(n, perm, rev) && RaderSpectrum(u, n, d, perm, bfft)
    ensures s.Kept() && s.rader == old(s.rader) && s.bluestein == old(s.bluestein)
  {
    hide Solves, IsRoots, Convolves, RaderTables, IsKernel, Prime;
    var perms, revs := new int[n - 1], new int[n];
    PrepareRaderPermutations(n, perms, revs);
    perm, rev := perms[..], revs[..];
    var b := PrepareRaderKernel(u, u.ring.zero, n, d, perm, rev);
    ghost var kernel := Element(u.ring.zero, b[..]);
    TransformTable(u, s, plan, b);
    bfft := b[..];
    assert IsKernel(u, n, d, perm, kernel) && forall k :: 0 <= k < n - 1 ==> bfft[k] == Dft(u, n - 1, -1, kernel, k);
  }

  method PrepareChirp<T(!new)>(u: Roots<T>, n: pos, d: sign) returns (w: array<T>)
    ensures fresh(w) && w.Length == n && forall k :: 0 <= k < n ==> w[k] == Chirp(u, n, d, k)
  {
    w := new T[n](_ => u.ring.zero);
    for k := 0 to n
      invariant forall i :: 0 <= i < k ==> w[i] == Chirp(u, n, d, i)
    {
      w[k] := u.w(2 * n, d * (k * k % (2 * n)));
      assert MulMod(k, k, 2 * n) == k * k % (2 * n);
    }
  }

  method PrepareChirpKernel<T(!new)>(u: Roots<T>, n: pos, d: sign, pad: pos, w: seq<T>) returns (b: array<T>)
    requires |w| == n && pad >= 2 * n - 1 && forall k :: 0 <= k < n ==> w[k] == Chirp(u, n, d, k)
    ensures fresh(b) && b.Length == pad && IsChirpKernel(u, n, d, pad, Element(u.ring.zero, b[..]))
  {
    hide Chirp;
    b := new T[pad](_ => u.ring.zero);
    b[0] := u.ring.mul(u.conj(w[0]), u.recip(pad));
    for k := 1 to n
      invariant KernelStoredBelow(u, n, d, pad, b[..], k)
    {
      var x := u.ring.mul(u.conj(w[k]), u.recip(pad));
      ghost var before := b[..];
      b[k] := x;
      b[pad - k] := x;
      StoreKernel(u, n, d, pad, before, k, x, b[..]);
    }
    forall k {:trigger ChirpKernel(u, n, d, pad, k)} | 0 < k < n ensures b[pad - k] == ChirpKernel(u, n, d, pad, k) {
      var j := pad - k;
      assert b[..][j] == ChirpKernel(u, n, d, pad, pad - j);
    }
  }

  /** Entries below k and their mirror images are in place. */
  ghost predicate KernelStoredBelow<T>(u: Roots<T>, n: pos, d: int, pad: int, b: seq<T>, k: int) {
    && |b| == pad
    && (forall j :: 0 <= j < k && j < pad ==> b[j] == ChirpKernel(u, n, d, pad, j))
    && (forall j :: pad - k < j < pad && 0 <= j ==> b[j] == ChirpKernel(u, n, d, pad, pad - j))
  }

  lemma StoreKernel<T>(u: Roots<T>, n: pos, d: int, pad: int, before: seq<T>, k: int, x: T, after: seq<T>)
    requires 0 < k < pad - k && KernelStoredBelow(u, n, d, pad, before, k)
    requires x == ChirpKernel(u, n, d, pad, k) && after == before[k := x][pad - k := x]
    ensures KernelStoredBelow(u, n, d, pad, after, k + 1)
  {
    hide ChirpKernel;
  }

  method PrepareBluestein<T(!new)>(u: Roots<T>, s: Scratch<T>, n: pos, d: sign, pad: pos, plan: Plan<T>)
    returns (w: seq<T>, bfft: seq<T>)
    requires IsRoots(u) && pad >= 2 * n - 1 && Solves(u, plan, TableProblem(pad)) && !Convolves(plan) && s.Valid()
    modifies s, s.Free()
    ensures ChirpSpectrum(u, n, d, pad, w, bfft)
    ensures s.Kept() && s.rader == old(s.rader) && s.bluestein == old(s.bluestein)
  {
    hide Solves, IsRoots, Convolves, IsChirpKernel, Chirp;
    var chirp := PrepareChirp(u, n, d);
    w := chirp[..];
    var b := PrepareChirpKernel(u, n, d, pad, w);
    ghost var kernel := Element(u.ring.zero, b[..]);
    TransformTable(u, s, plan, b);
    bfft := b[..];
    assert IsChirpKernel(u, n, d, pad, kernel) && forall k :: 0 <= k < pad ==> bfft[k] == Dft(u, pad, -1, kernel, k);
  }

  /** What a pair is for: a product with a + b im needs no product with im and no change of signs. */
  lemma PairMultiplies<T(!new)>(u: Roots<T>, p: TwidProblem, l: TableLayout, table: seq<T>, row: int, i: int, a: T, b: T)
    requires IsRing(u.ring) && TableHolds(u, p, l, table) && l.slots == 2
    requires 0 <= row && l.FirstRow() + row < p.howmany0 && 1 <= i < p.n
    ensures var s, w := l.Slot(p.n, row, i), u.w(p.n * p.howmany0, Phase(p.dir, l.FirstRow() + row, i));
      && 0 <= s < |table| - 1
      && u.ring.add(u.ring.mul(a, table[s]), u.ring.mul(b, table[s + 1])) == u.ring.mul(u.ring.add(a, u.ring.mul(b, u.im)), w)
  {
    var w := u.w(p.n * p.howmany0, Phase(p.dir, l.FirstRow() + row, i));
    assert 0 <= l.Slot(p.n, row, i) < |table| && table[l.Slot(p.n, row, i)] == w;
    hide IsRing, TableLayout.Slot;
    MulLaws(u.ring, b, u.im, w);
    Distributes(u.ring, w, a, u.ring.mul(b, u.im));
  }

  /** A quarter turn of the pair: the second element turned is the first, negated. */
  lemma PairTurns<T(!new)>(u: Roots<T>, p: TwidProblem, l: TableLayout, table: seq<T>, row: int, i: int)
    requires IsRing(u.ring) && HasImaginary(u) && TableHolds(u, p, l, table) && l.slots == 2
    requires 0 <= row && l.FirstRow() + row < p.howmany0 && 1 <= i < p.n
    ensures var s := l.Slot(p.n, row, i);
      0 <= s < |table| - 1 && u.ring.add(u.ring.mul(u.im, table[s + 1]), table[s]) == u.ring.zero
  {
    var r, w := u.ring, u.w(p.n * p.howmany0, Phase(p.dir, l.FirstRow() + row, i));
    assert 0 <= l.Slot(p.n, row, i) < |table| && table[l.Slot(p.n, row, i)] == w;
    hide IsRing, TableLayout.Slot;
    MulLaws(r, u.im, u.im, w);
    MulLaws(r, w, w, w);
    Distributes(r, w, r.neg(r.one), r.one);
    AddLaws(r, r.one, r.one, r.one);
    AddLaws(r, r.neg(r.one), r.one, r.one);
    MulZero(r, w);
  }

  /** The factors of a twiddled batch, in the layout its kernel reads. */
  method PrepareTwiddles<T(!new)>(u: Roots<T>, p: TwidProblem, l: TableLayout) returns (table: seq<T>)
    requires TwidSolvable(u, p) && l.slots <= 2
    ensures TableHolds(u, p, l, table)
    ensures |table| == l.slots * (RoundUpDiv(p.howmany0 - l.FirstRow(), l.interleave) * (p.n - 1) * l.interleave)
  {
    table := GenerateTwiddles(u, p.dir, p.howmany0, p.n, l);
    hide TableLayout.Slot, SlotValue, Phase, Divides, RoundUpDiv;
    forall row, i {:trigger l.Slot(p.n, row, i)} | 0 <= row && l.FirstRow() + row < p.howmany0 && 1 <= i < p.n
      ensures 0 <= l.Slot(p.n, row, i) < |table|
      ensures table[l.Slot(p.n, row, i)] == u.w(p.n * p.howmany0, Phase(p.dir, l.FirstRow() + row, i))
      ensures l.slots == 2 ==>
                && l.Slot(p.n, row, i) + 1 < |table|
                && table[l.Slot(p.n, row, i) + 1] == u.ring.mul(u.im, u.w(p.n * p.howmany0, Phase(p.dir, l.FirstRow() + row, i)))
    {
      SlotHoldsFactor(u, p.dir, p.howmany0, p.n, l, row, i);
      assert p.howmany0 * p.n == p.n * p.howmany0;
    }
  }
}
