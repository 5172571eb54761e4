/** Strided batches in memory, and the contracts of the base kernels that read and write them.

    The kernels are assembly in the library. Their bodies here only show that the contracts
    can be met; what the plans rely on is the contracts.
 */
module Memory {
  import opened Integers
  import opened Algebra
  import opened Roots
  import opened Transform

  /** Element k of batch member h lives at base + h dist + k stride. */
  datatype Layout = Layout(base: int, dist: int, stride: int) {
    function At(h: int, k: int): int { base + h * dist + k * stride }
  }

  ghost predicate Within(l: Layout, hs: int, ks: int, len: int) {
    forall h, k {:trigger l.At(h, k)} :: 0 <= h < hs && 0 <= k < ks ==> 0 <= l.At(h, k) < len
  }

  /** No two elements share an address. */
  ghost predicate Separate(l: Layout, hs: int, ks: int) {
    forall h, k, h', k' {:trigger l.At(h, k), l.At(h', k')} ::
      0 <= h < hs && 0 <= k < ks && 0 <= h' < hs && 0 <= k' < ks && l.At(h, k) == l.At(h', k') ==>
        h == h' && k == k'
  }

  /** a is the address of one of the elements. */
  ghost predicate Touches(l: Layout, hs: int, ks: int, a: int) {
    exists h, k {:trigger l.At(h, k)} :: 0 <= h < hs && 0 <= k < ks && l.At(h, k) == a
  }

  /** Nothing but the elements of the layout differs between before and after. */
  ghost predicate OnlyTouched<T(!new)>(l: Layout, hs: int, ks: int, before: seq<T>, after: seq<T>) {
    && |after| == |before|
    && forall a :: 0 <= a < |before| && !Touches(l, hs, ks, a) ==> after[a] == before[a]
  }

  /** The elements of two layouts have the same addresses. */
  ghost predicate SameAddresses(xl: Layout, yl: Layout, hs: int, ks: int) {
    forall h, k {:trigger xl.At(h, k)} {:trigger yl.At(h, k)} ::
      0 <= h < hs && 0 <= k < ks ==> xl.At(h, k) == yl.At(h, k)
  }

  function Get<T>(z: T, s: seq<T>, a: int): T { if 0 <= a < |s| then s[a] else z }

  /** Batch member h as a sequence of inputs. */
  function Column<T>(u: Roots<T>, s: seq<T>, l: Layout, h: int): int -> T {
    j => Get(u.ring.zero, s, l.At(h, j))
  }

  /** Writes one batch member. */
  method PutRow<T>(y: array<T>, l: Layout, h: int, col: seq<T>)
    requires forall k :: 0 <= k < |col| ==> 0 <= l.At(h, k) < y.Length
    requires forall k, k' {:trigger l.At(h, k), l.At(h, k')} ::
               0 <= k < |col| && 0 <= k' < |col| && l.At(h, k) == l.At(h, k') ==> k == k'
    modifies y
    ensures forall k :: 0 <= k < |col| ==> y[l.At(h, k)] == col[k]
    ensures forall a :: 0 <= a < y.Length && (forall k :: 0 <= k < |col| ==> l.At(h, k) != a) ==> y[a] == old(y[a])
  {
    for k := 0 to |col|
      invariant forall i :: 0 <= i < k ==> y[l.At(h, i)] == col[i]
      invariant forall a :: 0 <= a < y.Length && (forall i :: 0 <= i < k ==> l.At(h, i) != a) ==> y[a] == old(y[a])
    {
      y[l.At(h, k)] := col[k];
    }
  }

  // ----- kernels

  /** Every batch member h of the output is the twiddled transform of member h of the input. */
  ghost predicate Kerneled<T>(u: Roots<T>, n: nat, d: int, xs: seq<T>, xl: Layout, after: seq<T>, yl: Layout,
                              hs: int, tw: int -> int -> T)
  {
    forall h, k {:trigger yl.At(h, k)} :: 0 <= h < hs && 0 <= k < n && 0 <= yl.At(h, k) < |after| ==>
      after[yl.At(h, k)] == KernelValue(u, n, d, Column(u, xs, xl, h), tw(h), k)
  }

  /** The contract all base kernels meet, in place included. */
  method Kernel<T(!new)>(u: Roots<T>, n: nat, d: int, x: array<T>, xl: Layout, y: array<T>, yl: Layout,
                         hs: nat, tw: int -> int -> T)
    requires Within(xl, hs, n, x.Length) && Within(yl, hs, n, y.Length) && Separate(yl, hs, n)
    requires x == y ==> SameAddresses(xl, yl, hs, n)
    modifies y
    ensures Kerneled(u, n, d, old(x[..]), xl, y[..], yl, hs, tw)
    ensures OnlyTouched(yl, hs, n, old(y[..]), y[..])
  {
    ghost var xs := x[..];
    hide Layout.At;
    for h := 0 to hs
      invariant forall h', k {:trigger yl.At(h', k)} :: 0 <= h' < h && 0 <= k < n ==>
                  y[yl.At(h', k)] == KernelValue(u, n, d, Column(u, xs, xl, h'), tw(h'), k)
      invariant forall h', j {:trigger xl.At(h', j)} :: h <= h' < hs && 0 <= j < n ==>
                  x[xl.At(h', j)] == xs[xl.At(h', j)]
      invariant forall a :: 0 <= a < y.Length && !Touches(yl, h, n, a) ==> y[a] == old(y[a])
    {
      var row := Column(u, x[..], xl, h);
      var col := seq(n, k => KernelValue(u, n, d, row, tw(h), k));
      forall k | 0 <= k < n ensures col[k] == KernelValue(u, n, d, Column(u, xs, xl, h), tw(h), k) {
        SumExt(u.ring, n, KernelTerms(u, n, d, row, tw(h), k), KernelTerms(u, n, d, Column(u, xs, xl, h), tw(h), k));
      }
      PutRow(y, yl, h, col);
    }
  }
}
