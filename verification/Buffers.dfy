/** The loops that fill, multiply and empty the convolution buffers. */
module Buffers {
  import opened Integers
  import opened Algebra
  import opened Roots
  import opened Transform
  import opened Memory
  import opened Generator
  import opened Rader
  import opened Bluestein

  /** Interleaved rows: element k of batch member h at k howmany + h. */
  function Interleaved(howmany: int): Layout { Layout(0, 1, howmany) }

  lemma InterleavedRoom(howmany: pos, rows: nat, len: int)
    requires len >= rows * howmany
    ensures Within(Interleaved(howmany), howmany, rows, len)
    ensures Separate(Interleaved(howmany), howmany, rows)
  {
    var l := Interleaved(howmany);
    forall h, k {:trigger l.At(h, k)} | 0 <= h < howmany && 0 <= k < rows ensures 0 <= l.At(h, k) < len {
      InterleavedBound(howmany, rows, h, k);
    }
    forall h, k, h', k' {:trigger l.At(h, k), l.At(h', k')}
      | 0 <= h < howmany && 0 <= k < rows && 0 <= h' < howmany && 0 <= k' < rows && l.At(h, k) == l.At(h', k')
      ensures h == h' && k == k'
    {
      MulGrows(howmany, k - k');
      assert howmany * (k - k') == k * howmany - k' * howmany;
    }
  }

  lemma InterleavedBound(howmany: pos, rows: nat, h: int, k: int)
    requires 0 <= h < howmany && 0 <= k < rows
    ensures 0 <= Interleaved(howmany).At(h, k) < rows * howmany
  {
    MulGrows(howmany, rows - k);
    assert howmany * (rows - k) == rows * howmany - k * howmany;
    assert k * howmany >= 0;
  }

  lemma FewerRows(k: nat, n: nat, howmany: pos)
    requires k <= n
    ensures k * howmany <= n * howmany
  {
    MulGrows(howmany, n - k);
  }

  /** Element k of every batch member is multiplied by b[k]. */
  method PointwiseMultiply<T(!new)>(u: Roots<T>, a: array<T>, b: seq<T>, n: nat, howmany: pos)
    requires |b| == n && a.Length >= n * howmany
    modifies a
    ensures forall h, k {:trigger Interleaved(howmany).At(h, k)} :: 0 <= h < howmany && 0 <= k < n ==>
      0 <= Interleaved(howmany).At(h, k) < a.Length &&
      a[Interleaved(howmany).At(h, k)] == u.ring.mul(old(a[Interleaved(howmany).At(h, k)]), b[k])
    ensures OnlyTouched(Interleaved(howmany), howmany, n, old(a[..]), a[..])
  {
    ghost var before := a[..];
    var l := Interleaved(howmany);
    InterleavedRoom(howmany, n, a.Length);
    hide Layout.At;
    for j := 0 to n
      invariant forall h, k {:trigger l.At(h, k)} :: 0 <= h < howmany && 0 <= k < n ==>
        a[l.At(h, k)] == if k < j then u.ring.mul(before[l.At(h, k)], b[k]) else before[l.At(h, k)]
      invariant forall i :: 0 <= i < a.Length && !Touches(l, howmany, n, i) ==> a[i] == before[i]
    {
      for i := 0 to howmany
        invariant forall h, k {:trigger l.At(h, k)} :: 0 <= h < howmany && 0 <= k < n ==>
          a[l.At(h, k)] == if k < j || (k == j && h < i) then u.ring.mul(before[l.At(h, k)], b[k]) else before[l.At(h, k)]
        invariant forall i :: 0 <= i < a.Length && !Touches(l, howmany, n, i) ==> a[i] == before[i]
      {
        a[l.At(i, j)] := u.ring.mul(a[l.At(i, j)], b[j]);
      }
    }
  }

  // ----- inputs

  function Input<T>(u: Roots<T>, x: int -> T, tw: int -> T): int -> T { j => u.ring.mul(x(j), tw(j)) }

  /** The batch members of the input after multiplication by their twiddle factors. */
  function Inputs<T>(u: Roots<T>, xs: seq<T>, xl: Layout, tw: int -> int -> T): int -> int -> T {
    h => Input(u, Column(u, xs, xl, h), tw(h))
  }

  /** Names an input at which the twiddle factors are wanted. */
  ghost predicate Weighed(h: int, j: int) { true }

  /** Factor 0 of a row is one, and so are all factors of a batch without twiddles. */
  ghost predicate Factors<T>(u: Roots<T>, twiddled: bool, tw: int -> int -> T) {
    forall h, j {:trigger Weighed(h, j)} :: !twiddled || j == 0 ==> tw(h)(j) == u.ring.one
  }

  lemma Unweighed<T(!new)>(u: Roots<T>, xs: seq<T>, xl: Layout, twiddled: bool, tw: int -> int -> T, h: int, j: int)
    requires IsRing(u.ring) && Factors(u, twiddled, tw) && (!twiddled || j == 0)
    ensures Inputs(u, xs, xl, tw)(h)(j) == Get(u.ring.zero, xs, xl.At(h, j))
  {
    assert Weighed(h, j);
    var v := Get(u.ring.zero, xs, xl.At(h, j));
    MulLaws(u.ring, v, v, v);
  }

  // ----- Rader

  /** Entries 0..m of column h hold the inputs of batch member h in generator order. */
  ghost predicate ColumnPacked<T>(a: seq<T>, howmany: int, h: int, m: int, perm: seq<int>, x: int -> T) {
    forall k {:trigger Interleaved(howmany).At(h, k)} ::
      0 <= k < m && 0 <= Interleaved(howmany).At(h, k) < |a| ==> a[Interleaved(howmany).At(h, k)] == Packed(x, perm)(k)
  }

  /** Packs one batch member and adds it up. */
  method PackMember<T(!new)>(u: Roots<T>, x: array<T>, xl: Layout, twiddled: bool, tw: int -> int -> T, h: int,
                             a: array<T>, n: int, howmany: pos, perm: seq<int>) returns (x0: T, sum: T)
    requires IsRing(u.ring) && Factors(u, twiddled, tw)
    requires n > 2 && PermInRange(n, perm)
    requires 0 <= h < howmany && Within(xl, howmany, n, x.Length) && x != a && a.Length >= (n - 1) * howmany
    modifies a
    ensures ColumnPacked(a[..], howmany, h, n - 1, perm, Inputs(u, x[..], xl, tw)(h))
    ensures x0 == Inputs(u, x[..], xl, tw)(h)(0)
    ensures sum == u.ring.add(x0, Sum(u.ring, n - 1, Packed(Inputs(u, x[..], xl, tw)(h), perm)))
    ensures OnlyTouched(Layout(h, 0, howmany), 1, n - 1, old(a[..]), a[..])
  {
    var m, l := n - 1, Interleaved(howmany);
    ghost var xs := x[..];
    ghost var col := Inputs(u, xs, xl, tw)(h);
    InterleavedRoom(howmany, m, a.Length);
    assert forall k :: l.At(h, k) == Layout(h, 0, howmany).At(0, k);
    Unweighed(u, xs, xl, twiddled, tw, h, 0);
    hide Layout.At, Inputs, Factors;
    x0 := x[xl.At(h, 0)];
    sum := x0;
    AddLaws(u.ring, sum, sum, sum);
    for k := 0 to m
      invariant sum == u.ring.add(x0, Sum(u.ring, k, Packed(col, perm)))
      invariant forall i {:trigger l.At(h, i)} :: 0 <= i < k ==> a[l.At(h, i)] == Packed(col, perm)(i)
      invariant forall i :: 0 <= i < a.Length && !Touches(Layout(h, 0, howmany), 1, m, i) ==> a[i] == old(a[i])
    {
      var pk := perm[k];
      var xk := x[xl.At(h, pk)];
      if twiddled {
        xk := u.ring.mul(xk, tw(h)(pk));
      } else {
        Unweighed(u, xs, xl, twiddled, tw, h, pk);
      }
      assert xk == Packed(col, perm)(k) by { InputAt(u, xs, xl, tw, h, pk); }
      a[l.At(h, k)] := xk;
      AddLaws(u.ring, x0, Sum(u.ring, k, Packed(col, perm)), xk);
      sum := u.ring.add(sum, xk);
    }
  }

  lemma InputAt<T>(u: Roots<T>, xs: seq<T>, xl: Layout, tw: int -> int -> T, h: int, j: int)
    ensures Inputs(u, xs, xl, tw)(h)(j) == u.ring.mul(Get(u.ring.zero, xs, xl.At(h, j)), tw(h)(j))
  {
  }

  /** Row m saves input 0 of every member, and row m + 1 the sum of its inputs. */
  ghost predicate MemberPacked<T>(u: Roots<T>, a: seq<T>, howmany: int, h: int, m: nat, perm: seq<int>, x: int -> T) {
    && ColumnPacked(a, howmany, h, m, perm, x)
    && 0 <= Interleaved(howmany).At(h, m) < |a| && a[Interleaved(howmany).At(h, m)] == x(0)
    && 0 <= Interleaved(howmany).At(h, m + 1) < |a|
    && a[Interleaved(howmany).At(h, m + 1)] == u.ring.add(x(0), Sum(u.ring, m, Packed(x, perm)))
  }

  /** Writes to one batch member leave the others alone. */
  lemma OtherColumn<T(!new)>(howmany: pos, h: int, h': int, rows: nat, k: int, before: seq<T>, after: seq<T>)
    requires 0 <= h < howmany && 0 <= h' < howmany && h != h' && 0 <= k < rows && |before| >= rows * howmany
    requires OnlyTouched(Layout(h, 0, howmany), 1, rows, before, after)
    ensures 0 <= Interleaved(howmany).At(h', k) < |before|
    ensures after[Interleaved(howmany).At(h', k)] == before[Interleaved(howmany).At(h', k)]
  {
    var l := Interleaved(howmany);
    InterleavedRoom(howmany, rows, |before|);
    forall z, i | 0 <= z < 1 && 0 <= i < rows ensures Layout(h, 0, howmany).At(z, i) != l.At(h', k) {
      assert l.At(h, i) != l.At(h', k);
    }
  }

  lemma MoreRows<T(!new)>(l: Layout, rows: nat, more: nat, before: seq<T>, after: seq<T>)
    requires OnlyTouched(l, 1, rows, before, after) && rows <= more
    ensures OnlyTouched(l, 1, more, before, after)
  {
  }

  lemma OtherMember<T(!new)>(u: Roots<T>, howmany: pos, h: int, h': int, m: nat, perm: seq<int>, x: int -> T, before: seq<T>, after: seq<T>)
    requires 0 <= h < howmany && 0 <= h' < howmany && h != h' && |before| >= (m + 2) * howmany
    requires OnlyTouched(Layout(h, 0, howmany), 1, m + 2, before, after)
    requires MemberPacked(u, before, howmany, h', m, perm, x)
    ensures MemberPacked(u, after, howmany, h', m, perm, x)
  {
    InterleavedRoom(howmany, m + 2, |before|);
    hide Layout.At, OnlyTouched;
    assert |after| == |before| by { OtherColumn(howmany, h, h', m + 2, m, before, after); Lengths(Layout(h, 0, howmany), m + 2, before, after); }
    forall k {:trigger Interleaved(howmany).At(h', k)} | 0 <= k < m + 2
      ensures after[Interleaved(howmany).At(h', k)] == before[Interleaved(howmany).At(h', k)]
    {
      OtherColumn(howmany, h, h', m + 2, k, before, after);
    }
  }

  lemma Lengths<T(!new)>(l: Layout, rows: nat, before: seq<T>, after: seq<T>)
    requires OnlyTouched(l, 1, rows, before, after)
    ensures |after| == |before|
  {
  }

  ghost predicate RaderPacked<T>(u: Roots<T>, a: seq<T>, howmany: int, m: nat, perm: seq<int>, x: int -> int -> T) {
    forall h {:trigger x(h)} :: 0 <= h < howmany ==> MemberPacked(u, a, howmany, h, m, perm, x(h))
  }

  method PackRader<T(!new)>(u: Roots<T>, x: array<T>, xl: Layout, twiddled: bool, tw: int -> int -> T,
                            a: array<T>, n: int, howmany: pos, perm: seq<int>)
    requires IsRing(u.ring) && Factors(u, twiddled, tw)
    requires n > 2 && PermInRange(n, perm)
    requires Within(xl, howmany, n, x.Length) && x != a && a.Length >= (n + 1) * howmany
    modifies a
    ensures RaderPacked(u, a[..], howmany, n - 1, perm, Inputs(u, x[..], xl, tw))
  {
    var m, l := n - 1, Interleaved(howmany);
    ghost var inputs := Inputs(u, x[..], xl, tw);
    InterleavedRoom(howmany, m + 2, a.Length);
    hide Inputs, Factors, RaderTables, Within;
    for h := 0 to howmany
      invariant forall h' {:trigger inputs(h')} :: 0 <= h' < h ==> MemberPacked(u, a[..], howmany, h', m, perm, inputs(h'))
    {
      ghost var before := a[..];
      RowAddress(howmany, h, m, a.Length);
      FewerRows(n - 1, n + 1, howmany);
      var x0, sum := PackMember(u, x, xl, twiddled, tw, h, a, n, howmany, perm);
      ghost var packed := a[..];
      a[l.At(h, m)] := x0;
      a[l.At(h, m + 1)] := sum;
      MemberStored(u, howmany, h, m, perm, inputs(h), before, packed, a[..]);
      forall h' {:trigger inputs(h')} | 0 <= h' < h ensures MemberPacked(u, a[..], howmany, h', m, perm, inputs(h')) {
        OtherMember(u, howmany, h, h', m, perm, inputs(h'), before, a[..]);
      }
    }
  }

  lemma RowAddress(howmany: pos, h: int, m: nat, len: int)
    requires 0 <= h < howmany && len >= (m + 2) * howmany
    ensures 0 <= Interleaved(howmany).At(h, m) < len && 0 <= Interleaved(howmany).At(h, m + 1) < len
  {
    InterleavedBound(howmany, m + 2, h, m);
    InterleavedBound(howmany, m + 2, h, m + 1);
  }

  lemma MemberStored<T(!new)>(u: Roots<T>, howmany: pos, h: int, m: nat, perm: seq<int>, x: int -> T,
                              before: seq<T>, packed: seq<T>, after: seq<T>)
    requires 0 <= h < howmany && |packed| >= (m + 2) * howmany
    requires 0 <= Interleaved(howmany).At(h, m) < |packed| && 0 <= Interleaved(howmany).At(h, m + 1) < |packed|
    requires ColumnPacked(packed, howmany, h, m, perm, x)
    requires OnlyTouched(Layout(h, 0, howmany), 1, m, before, packed)
    requires after == packed[Interleaved(howmany).At(h, m) := x(0)]
                            [Interleaved(howmany).At(h, m + 1) := u.ring.add(x(0), Sum(u.ring, m, Packed(x, perm)))]
    ensures MemberPacked(u, after, howmany, h, m, perm, x)
    ensures OnlyTouched(Layout(h, 0, howmany), 1, m + 2, before, after)
  {
    var l, c := Interleaved(howmany), Layout(h, 0, howmany);
    InterleavedRoom(howmany, m + 2, |packed|);
    assert forall k :: l.At(h, k) == c.At(0, k);
    hide Layout.At;
    assert Touches(c, 1, m + 2, l.At(h, m)) by { assert c.At(0, m) == l.At(h, m); }
    assert Touches(c, 1, m + 2, l.At(h, m + 1)) by { assert c.At(0, m + 1) == l.At(h, m + 1); }
  }

  /** Output v of a batch member, from its saved input 0, its sum and its convolved column. */
  function Unpacked<T>(u: Roots<T>, a: seq<T>, howmany: int, h: int, x0: T, sum: T, rev: seq<int>, v: int): T {
    if v == 0 then sum
    else if 0 <= v < |rev| then u.ring.add(x0, Get(u.ring.zero, a, Interleaved(howmany).At(h, rev[v])))
    else u.ring.zero
  }

  method UnpackMember<T(!new)>(u: Roots<T>, y: array<T>, yl: Layout, h: int, a: array<T>, n: int, howmany: pos,
                               x0: T, sum: T, rev: seq<int>, ghost hs: int)
    requires n > 2 && RevInRange(n, rev)
    requires 0 <= h < howmany && a.Length >= (n - 1) * howmany && a != y
    requires h < hs && Within(yl, hs, n, y.Length) && Separate(yl, hs, n)
    modifies y
    ensures forall v {:trigger yl.At(h, v)} :: 0 <= v < n ==>
              y[yl.At(h, v)] == Unpacked(u, a[..], howmany, h, x0, sum, rev, v)
    ensures forall i :: 0 <= i < y.Length && (forall v :: 0 <= v < n ==> yl.At(h, v) != i) ==> y[i] == old(y[i])
  {
    var l := Interleaved(howmany);
    InterleavedRoom(howmany, n - 1, a.Length);
    hide Layout.At;
    y[yl.At(h, 0)] := sum;
    for k := 1 to n
      invariant forall v {:trigger yl.At(h, v)} :: 0 <= v < k ==>
        y[yl.At(h, v)] == Unpacked(u, a[..], howmany, h, x0, sum, rev, v)
      invariant forall i :: 0 <= i < y.Length && (forall v :: 0 <= v < n ==> yl.At(h, v) != i) ==> y[i] == old(y[i])
    {
      y[yl.At(h, k)] := u.ring.add(x0, a[l.At(h, rev[k])]);
    }
  }

  method UnpackRader<T(!new)>(u: Roots<T>, y: array<T>, yl: Layout, a: array<T>, n: int, howmany: pos, rev: seq<int>)
    requires n > 2 && RevInRange(n, rev)
    requires a.Length >= (n + 1) * howmany && a != y
    requires Within(yl, howmany, n, y.Length) && Separate(yl, howmany, n)
    modifies y
    ensures forall h, v {:trigger yl.At(h, v)} :: 0 <= h < howmany && 0 <= v < n ==>
              y[yl.At(h, v)] == Unpacked(u, a[..], howmany, h, Get(u.ring.zero, a[..], Interleaved(howmany).At(h, n - 1)),
                                         Get(u.ring.zero, a[..], Interleaved(howmany).At(h, n)), rev, v)
    ensures OnlyTouched(yl, howmany, n, old(y[..]), y[..])
  {
    var l := Interleaved(howmany);
    ghost var packed := a[..];
    hide Layout.At, Unpacked;
    for h := 0 to howmany
      invariant forall h', v {:trigger yl.At(h', v)} :: 0 <= h' < h && 0 <= v < n ==>
        y[yl.At(h', v)] == Unpacked(u, packed, howmany, h', Get(u.ring.zero, packed, l.At(h', n - 1)),
                                    Get(u.ring.zero, packed, l.At(h', n)), rev, v)
      invariant OnlyTouched(yl, h, n, old(y[..]), y[..])
      invariant a[..] == packed
    {
      RowAddress(howmany, h, n - 1, a.Length);
      UnpackMember(u, y, yl, h, a, n, howmany, a[l.At(h, n - 1)], a[l.At(h, n)], rev, howmany);
    }
  }

  // ----- Bluestein

  /** Factor 0 of every row is one, and so are all factors of member 0 and of a batch without twiddles. */
  ghost predicate ChirpFactors<T>(u: Roots<T>, twiddled: bool, tw: int -> int -> T) {
    forall h, j {:trigger Weighed(h, j)} :: !twiddled || j == 0 || h == 0 ==> tw(h)(j) == u.ring.one
  }

  lemma ChirpedElement<T(!new)>(u: Roots<T>, n: pos, d: int, xs: seq<T>, xl: Layout, twiddled: bool, tw: int -> int -> T,
                                h: int, k: int, xk: T)
    requires IsRing(u.ring) && ChirpFactors(u, twiddled, tw) && 0 <= h && 0 <= k < n
    requires var v := u.ring.mul(Get(u.ring.zero, xs, xl.At(h, k)), Chirp(u, n, d, k));
             xk == if twiddled && k > 0 && h > 0 then u.ring.mul(v, tw(h)(k)) else v
    ensures xk == Chirped(u, n, d, Inputs(u, xs, xl, tw)(h))(k)
  {
    var x, c, t := Get(u.ring.zero, xs, xl.At(h, k)), Chirp(u, n, d, k), tw(h)(k);
    assert Weighed(h, k);
    MulLaws(u.ring, x, x, x);
    MulLaws(u.ring, x, c, t);
    MulLaws(u.ring, x, t, c);
    MulLaws(u.ring, c, t, t);
    assert Inputs(u, xs, xl, tw)(h)(k) == u.ring.mul(x, t);
    hide Chirp, Inputs;
    assert xk == u.ring.mul(u.ring.mul(x, t), c);
  }

  /** Entry k of every column is the chirped input, and the tail is zero. */
  ghost predicate ChirpPacked<T>(u: Roots<T>, a: seq<T>, n: pos, d: int, pad: int, howmany: int, x: int -> int -> T) {
    forall h, k {:trigger Interleaved(howmany).At(h, k)} ::
      0 <= h < howmany && 0 <= k < pad && 0 <= Interleaved(howmany).At(h, k) < |a| ==>
        a[Interleaved(howmany).At(h, k)] == Chirped(u, n, d, x(h))(k)
  }

  method ZeroTail<T>(u: Roots<T>, a: array<T>, n: nat, howmany: pos, pad: nat)
    requires n <= pad && a.Length >= pad * howmany
    modifies a
    ensures forall h, k {:trigger Interleaved(howmany).At(h, k)} :: 0 <= h < howmany && n <= k < pad ==>
              0 <= Interleaved(howmany).At(h, k) < a.Length && a[Interleaved(howmany).At(h, k)] == u.ring.zero
  {
    FewerRows(n, pad, howmany);
    for i := n * howmany to pad * howmany
      invariant forall j :: n * howmany <= j < i ==> a[j] == u.ring.zero
    {
      a[i] := u.ring.zero;
    }
    forall h, k {:trigger Interleaved(howmany).At(h, k)} | 0 <= h < howmany && n <= k < pad
      ensures n * howmany <= Interleaved(howmany).At(h, k) < pad * howmany
    {
      InterleavedBound(howmany, pad, h, k);
      MulGrows(howmany, k - n);
      assert howmany * (k - n) == k * howmany - n * howmany;
    }
  }

  method PackBluestein<T(!new)>(u: Roots<T>, x: array<T>, xl: Layout, twiddled: bool, tw: int -> int -> T,
                                a: array<T>, n: pos, d: int, pad: nat, howmany: pos, w: seq<T>)
    requires IsRing(u.ring) && ChirpFactors(u, twiddled, tw)
    requires |w| == n && (forall k :: 0 <= k < n ==> w[k] == Chirp(u, n, d, k))
    requires Within(xl, howmany, n, x.Length) && x != a && n <= pad && a.Length >= pad * howmany
    modifies a
    ensures ChirpPacked(u, a[..], n, d, pad, howmany, Inputs(u, x[..], xl, tw))
  {
    var l := Interleaved(howmany);
    ghost var xs, inputs := x[..], Inputs(u, x[..], xl, tw);
    ZeroTail(u, a, n, howmany, pad);
    InterleavedRoom(howmany, pad, a.Length);
    hide Layout.At, Inputs, ChirpFactors, Chirp, Chirped;
    for k := 0 to n
      invariant forall h, i {:trigger l.At(h, i)} :: 0 <= h < howmany && 0 <= i < k ==>
                  a[l.At(h, i)] == Chirped(u, n, d, inputs(h))(i)
      invariant forall h, i {:trigger l.At(h, i)} :: 0 <= h < howmany && n <= i < pad ==> a[l.At(h, i)] == u.ring.zero
    {
      for h := 0 to howmany
        invariant forall h', i {:trigger l.At(h', i)} :: 0 <= h' < howmany && 0 <= i <= k && (i < k || h' < h) ==>
                    a[l.At(h', i)] == Chirped(u, n, d, inputs(h'))(i)
        invariant forall h, i {:trigger l.At(h, i)} :: 0 <= h < howmany && n <= i < pad ==> a[l.At(h, i)] == u.ring.zero
      {
        var xk := u.ring.mul(x[xl.At(h, k)], w[k]);
        if twiddled && k > 0 && h > 0 {
          xk := u.ring.mul(xk, tw(h)(k));
        }
        ChirpedElement(u, n, d, xs, xl, twiddled, tw, h, k, xk);
        a[l.At(h, k)] := xk;
      }
    }
    forall h, k {:trigger l.At(h, k)} | 0 <= h < howmany && 0 <= k < pad
      ensures a[l.At(h, k)] == Chirped(u, n, d, inputs(h))(k)
    {
      ChirpTail(u, n, d, inputs(h), k);
    }
  }

  lemma ChirpTail<T>(u: Roots<T>, n: pos, d: int, x: int -> T, k: int)
    ensures k >= n ==> Chirped(u, n, d, x)(k) == u.ring.zero
  {
  }

  method UnpackBluestein<T(!new)>(u: Roots<T>, y: array<T>, yl: Layout, a: array<T>, n: pos, howmany: pos, w: seq<T>)
    requires |w| == n && a.Length >= n * howmany && a != y
    requires Within(yl, howmany, n, y.Length) && Separate(yl, howmany, n)
    modifies y
    ensures forall h, k {:trigger yl.At(h, k)} :: 0 <= h < howmany && 0 <= k < n ==>
              y[yl.At(h, k)] == u.ring.mul(Get(u.ring.zero, a[..], Interleaved(howmany).At(h, k)), w[k])
    ensures OnlyTouched(yl, howmany, n, old(y[..]), y[..])
  {
    var l := Interleaved(howmany);
    InterleavedRoom(howmany, n, a.Length);
    hide Layout.At;
    for k := 0 to n
      invariant forall h, i {:trigger yl.At(h, i)} :: 0 <= h < howmany && 0 <= i < k ==>
                  y[yl.At(h, i)] == u.ring.mul(a[l.At(h, i)], w[i])
      invariant OnlyTouched(yl, howmany, n, old(y[..]), y[..])
    {
      for h := 0 to howmany
        invariant forall h', i {:trigger yl.At(h', i)} :: 0 <= h' < howmany && 0 <= i <= k && (i < k || h' < h) ==>
                    y[yl.At(h', i)] == u.ring.mul(a[l.At(h', i)], w[i])
        invariant OnlyTouched(yl, howmany, n, old(y[..]), y[..])
      {
        y[yl.At(h, k)] := u.ring.mul(a[l.At(h, k)], w[k]);
      }
    }
  }
}
