/** The kernels of real transforms: those that write only a first part of their outputs, and
    those that write the rest conjugated and in reverse through a second pointer.
 */
module RealKernels {
  import opened Integers
  import opened Algebra
  import opened Roots
  import opened Transform
  import opened Memory
  import opened Plans
  import opened RealSpectrum

  /** The first lim outputs of every batch member. */
  ghost predicate KerneledUpto<T>(u: Roots<T>, n: nat, lim: int, d: int, xs: seq<T>, xl: Layout, after: seq<T>, yl: Layout,
                                  hs: int, tw: int -> int -> T)
  {
    forall h, k {:trigger yl.At(h, k)} :: 0 <= h < hs && 0 <= k < lim && 0 <= yl.At(h, k) < |after| ==>
      after[yl.At(h, k)] == KernelValue(u, n, d, Column(u, xs, xl, h), tw(h), k)
  }

  /** Output lim + k, conjugated. */
  function TailValue<T>(u: Roots<T>, n: nat, lim: int, d: int, x: int -> T, tw: int -> T, k: int): T {
    u.conj(KernelValue(u, n, d, x, tw, lim + k))
  }

  /** The outputs from lim on, conjugated; the layout counts them from lim. */
  ghost predicate KerneledConj<T>(u: Roots<T>, n: nat, lim: int, d: int, xs: seq<T>, xl: Layout, after: seq<T>, yyl: Layout,
                                  hs: int, tw: int -> int -> T)
  {
    forall h, k {:trigger yyl.At(h, k)} :: 0 <= h < hs && 0 <= k < n - lim && 0 <= yyl.At(h, k) < |after| ==>
      after[yyl.At(h, k)] == TailValue(u, n, lim, d, Column(u, xs, xl, h), tw(h), k)
  }

  /** The kernels with output modifiers that stop at n / 2 + 1 or (n + 1) / 2 outputs. */
  method KernelUpto<T(!new)>(u: Roots<T>, n: nat, lim: nat, d: int, x: array<T>, xl: Layout, y: array<T>, yl: Layout,
                             hs: nat, tw: int -> int -> T)
    requires lim <= n && x != y
    requires Within(xl, hs, n, x.Length) && Within(yl, hs, lim, y.Length) && Separate(yl, hs, lim)
    modifies y
    ensures KerneledUpto(u, n, lim, d, x[..], xl, y[..], yl, hs, tw)
    ensures OnlyTouched(yl, hs, lim, old(y[..]), y[..])
  {
    hide Layout.At;
    for h := 0 to hs
      invariant forall h', k {:trigger yl.At(h', k)} :: 0 <= h' < h && 0 <= k < lim ==>
                  y[yl.At(h', k)] == KernelValue(u, n, d, Column(u, x[..], xl, h'), tw(h'), k)
      invariant forall a :: 0 <= a < y.Length && !Touches(yl, h, lim, a) ==> y[a] == old(y[a])
    {
      var row := Column(u, x[..], xl, h);
      var col := seq(lim, k => KernelValue(u, n, d, row, tw(h), k));
      PutRow(y, yl, h, col);
    }
  }

  /** No element of one layout has the address of an element of the other. */
  ghost predicate Apart(yl: Layout, ks: int, yyl: Layout, kks: int, hs: int) {
    forall h, k, h', k' {:trigger yl.At(h, k), yyl.At(h', k')} ::
      0 <= h < hs && 0 <= k < ks && 0 <= h' < hs && 0 <= k' < kks ==> yl.At(h, k) != yyl.At(h', k')
  }

  /** Nothing but the elements of the two layouts changes. */
  ghost predicate BothTouched<T(!new)>(yl: Layout, ks: int, yyl: Layout, kks: int, hs: int, before: seq<T>, after: seq<T>) {
    && |after| == |before|
    && forall a :: 0 <= a < |before| && !Touches(yl, hs, ks, a) && !Touches(yyl, hs, kks, a) ==> after[a] == before[a]
  }

  /** The stores through the second pointer. */
  method StoreReversed<T(!new)>(u: Roots<T>, n: nat, lim: nat, d: int, x: array<T>, xl: Layout, y: array<T>, yyl: Layout,
                                hs: nat, tw: int -> int -> T)
    requires lim <= n && x != y
    requires Within(xl, hs, n, x.Length) && Within(yyl, hs, n - lim, y.Length) && Separate(yyl, hs, n - lim)
    modifies y
    ensures KerneledConj(u, n, lim, d, x[..], xl, y[..], yyl, hs, tw)
    ensures OnlyTouched(yyl, hs, n - lim, old(y[..]), y[..])
  {
    hide Layout.At, TailValue;
    for h := 0 to hs
      invariant forall h', k {:trigger yyl.At(h', k)} :: 0 <= h' < h && 0 <= k < n - lim ==>
                  y[yyl.At(h', k)] == TailValue(u, n, lim, d, Column(u, x[..], xl, h'), tw(h'), k)
      invariant forall a :: 0 <= a < y.Length && !Touches(yyl, h, n - lim, a) ==> y[a] == old(y[a])
    {
      var row := Column(u, x[..], xl, h);
      var col := seq(n - lim, k => TailValue(u, n, lim, d, row, tw(h), k));
      PutRow(y, yyl, h, col);
    }
  }

  /** The stores through the second pointer leave those through the first alone. */
  lemma StoresTogether<T(!new)>(u: Roots<T>, n: nat, lim: int, d: int, xs: seq<T>, xl: Layout, yl: Layout, yyl: Layout, hs: int,
                                tw: int -> int -> T, before: seq<T>, mid: seq<T>, after: seq<T>)
    requires Apart(yl, lim, yyl, n - lim, hs)
    requires KerneledUpto(u, n, lim, d, xs, xl, mid, yl, hs, tw) && OnlyTouched(yl, hs, lim, before, mid)
    requires OnlyTouched(yyl, hs, n - lim, mid, after)
    ensures KerneledUpto(u, n, lim, d, xs, xl, after, yl, hs, tw)
    ensures BothTouched(yl, lim, yyl, n - lim, hs, before, after)
  {
    hide Layout.At, KernelValue;
  }

  /** The kernel with the conjugate-reverse output modifier. */
  method KernelConjReverse<T(!new)>(u: Roots<T>, n: nat, d: int, x: array<T>, xl: Layout, y: array<T>, yl: Layout,
                                    yyl: Layout, hs: nat, tw: int -> int -> T)
    requires x != y && Within(xl, hs, n, x.Length)
    requires Within(yl, hs, (n + 1) / 2, y.Length) && Separate(yl, hs, (n + 1) / 2)
    requires Within(yyl, hs, n / 2, y.Length) && Separate(yyl, hs, n / 2)
    requires Apart(yl, (n + 1) / 2, yyl, n / 2, hs)
    modifies y
    ensures KerneledUpto(u, n, (n + 1) / 2, d, x[..], xl, y[..], yl, hs, tw)
    ensures KerneledConj(u, n, (n + 1) / 2, d, x[..], xl, y[..], yyl, hs, tw)
    ensures BothTouched(yl, (n + 1) / 2, yyl, n / 2, hs, old(y[..]), y[..])
  {
    var lim := (n + 1) / 2;
    ghost var before, xs := y[..], x[..];
    assert n - lim == n / 2;
    hide Layout.At, Within, Separate, Apart, KerneledUpto, KerneledConj, OnlyTouched, BothTouched;
    KernelUpto(u, n, lim, d, x, xl, y, yl, hs, tw);
    ghost var mid := y[..];
    StoreReversed(u, n, lim, d, x, xl, y, yyl, hs, tw);
    assert x[..] == xs;
    StoresTogether(u, n, lim, d, xs, xl, yl, yyl, hs, tw, before, mid, y[..]);
  }
}
