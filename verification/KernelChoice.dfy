/** Which kernel lengths the two factorizations divide out. */
module KernelChoice {
  import opened Integers
  import opened NumberTheory
  import opened Factorize

  /** All kernel lengths are at least 2. */
  ghost predicate Lengths(ks: seq<int>) { forall i :: 0 <= i < |ks| ==> ks[i] >= 2 }

  ghost predicate Rising(ks: seq<int>) { forall i, j :: 0 <= i < j < |ks| ==> ks[i] < ks[j] }

  /** Each kernel length in turn, as often as it divides. */
  function InOrder(n: pos, ks: seq<int>): seq<int>
    requires Lengths(ks)
    decreases |ks|, n
  {
    if ks == [] then []
    else if n % ks[0] == 0 then Quotient(n, ks[0]); [ks[0]] + InOrder(n / ks[0], ks)
    else InOrder(n, ks[1..])
  }

  lemma Quotient(n: pos, k: int)
    requires k >= 2 && n % k == 0
    ensures 0 < n / k < n
  {
    ProperQuotient(n, k);
  }

  /** The kernel lengths that divide n. */
  function UsefulOf(n: pos, ks: seq<int>): (useful: seq<int>)
    requires Lengths(ks)
    ensures forall k :: k in useful <==> k in ks && n % k == 0
  {
    if ks == [] then []
    else
      assert ks == [ks[0]] + ks[1..];
      (if n % ks[0] == 0 then [ks[0]] else []) + UsefulOf(n, ks[1..])
  }

  /** The first that reaches the target while its successor does not, else the last. */
  function Pick(useful: seq<int>, target: int): (k: int)
    requires useful != []
    ensures k in useful
  {
    if |useful| == 1 || (useful[0] >= target && useful[1] < target) then useful[0] else Pick(useful[1..], target)
  }

  /** Picked again and again; the target may be any number. */
  function Picked(n: pos, ks: seq<int>, target: ((int, int)) -> int): seq<int>
    requires Lengths(ks)
    decreases n
  {
    var useful := UsefulOf(n, ks);
    if useful == [] then []
    else
      var k := Pick(useful, target((n, useful[0])));
      Quotient(n, k);
      [k] + Picked(n / k, ks, target)
  }

  ghost predicate Falling(ks: seq<int>) { forall i, j :: 0 <= i < j < |ks| ==> ks[i] > ks[j] }

  // ----- ascending kernel lengths

  /** Always the largest kernel length that divides what is left. */
  ghost predicate Greedy(n: pos, ks: seq<int>, fs: seq<int>)
    requires Lengths(ks)
    decreases |fs|
  {
    if fs == [] then forall k :: k in ks ==> n % k != 0
    else
      && fs[0] in ks && n % fs[0] == 0 && (forall k :: k in ks && n % k == 0 ==> k <= fs[0])
      && (Quotient(n, fs[0]); Greedy(n / fs[0], ks, fs[1..]))
  }

  lemma {:induction false} UsefulRising(n: pos, ks: seq<int>)
    requires Lengths(ks) && Rising(ks)
    ensures Rising(UsefulOf(n, ks))
  {
    if ks != [] {
      UsefulRising(n, ks[1..]);
      var rest := UsefulOf(n, ks[1..]);
      forall i | 0 <= i < |rest| ensures ks[0] < rest[i] { assert rest[i] in ks[1..]; }
    }
  }

  lemma {:induction false} PickLast(useful: seq<int>, target: int)
    requires useful != [] && Rising(useful)
    ensures forall k :: k in useful ==> k <= Pick(useful, target)
  {
    if |useful| > 1 {
      var rest := useful[1..];
      PickLast(rest, target);
      assert useful == [useful[0]] + rest && useful[0] < useful[1] && rest[0] in rest;
    }
  }

  /** Then the computed target does not matter: the largest is taken every time. */
  lemma {:induction false} PickedGreedy(n: pos, ks: seq<int>, target: ((int, int)) -> int)
    requires Lengths(ks) && Rising(ks)
    ensures Greedy(n, ks, Picked(n, ks, target))
    decreases n
  {
    var useful := UsefulOf(n, ks);
    if useful == [] {
      assert forall k :: k in ks ==> k !in useful;
    } else {
      var t := target((n, useful[0]));
      UsefulRising(n, ks);
      PickLast(useful, t);
      Quotient(n, Pick(useful, t));
      PickedGreedy(n / Pick(useful, t), ks, target);
      assert Picked(n, ks, target)[1..] == Picked(n / Pick(useful, t), ks, target);
    }
  }

  /** Only one list is greedy. */
  lemma {:induction false} OneGreedy(n: pos, ks: seq<int>, a: seq<int>, b: seq<int>)
    requires Lengths(ks) && Greedy(n, ks, a) && Greedy(n, ks, b)
    ensures a == b
    decreases |a|
  {
    if a != [] && b != [] {
      assert a[0] == b[0];
      Quotient(n, a[0]);
      OneGreedy(n / a[0], ks, a[1..], b[1..]);
      assert a == [a[0]] + a[1..] && b == [b[0]] + b[1..];
    }
  }

  /** No two factors need be near each other: 64 becomes 16 and 4, not 8 and 8. */
  lemma NotSquare(ks: seq<int>, target: ((int, int)) -> int)
    requires Lengths(ks) && Rising(ks) && 16 in ks && 4 in ks && 32 !in ks && 64 !in ks
    ensures Picked(64, ks, target) == [16, 4]
  {
    PickedGreedy(64, ks, target);
    assert [16, 4][1..] == [4] && [4][1..] == [];
    assert Greedy(4, ks, [4]) by { GreedyFour(ks); }
    forall k | k in ks && 64 % k == 0 ensures k <= 16 { Divisor64(k); }
    assert 64 / 16 == 4 && 64 % 16 == 0;
    assert Greedy(64, ks, [16, 4]);
    OneGreedy(64, ks, Picked(64, ks, target), [16, 4]);
  }

  lemma GreedyFour(ks: seq<int>)
    requires Lengths(ks) && 4 in ks
    ensures Greedy(4, ks, [4])
  {
    assert [4][1..] == [] && 4 % 4 == 0 && 4 / 4 == 1;
    forall k | k in ks ensures 1 % k != 0 {}
    assert Greedy(1, ks, []);
    forall k | k in ks && 4 % k == 0 ensures k <= 4 {}
  }

  lemma Divisor64(k: int)
    requires k >= 2 && 64 % k == 0
    ensures k <= 16 || k == 32 || k == 64
  {
    var q := 64 / k;
    assert q * k == 64;
    if q >= 4 { assert k <= 16; }
  }

  /** Dividing in ascending order takes primes only, where every prime factor of a kernel length is one. */
  lemma {:induction false} InOrderPrime(n: pos, done: seq<int>, ks: seq<int>, i: nat)
    requires Lengths(done) && Lengths(ks) && Rising(done + ks) && PrimeClosed(done + ks)
    requires (forall k :: k in done ==> !Zero(k, n)) && i < |InOrder(n, ks)|
    ensures Prime(InOrder(n, ks)[i])
    decreases |ks|, n
  {
    hide Prime, Rising, PrimeClosed, InOrder;
    if ks == [] {
      NoneLeft(n, ks);
    } else if n % ks[0] == 0 {
      var k := ks[0];
      TakesHead(n, ks);
      if i == 0 {
        HeadPrime(n, done, ks);
      } else {
        StillNone(n, done, k);
        InOrderPrime(n / k, done, ks, i - 1);
      }
    } else {
      SkipsHead(n, ks);
      assert done + ks == (done + [ks[0]]) + ks[1..];
      InOrderPrime(n, done + [ks[0]], ks[1..], i);
    }
  }

  lemma StillNone(n: pos, done: seq<int>, k: pos)
    requires n % k == 0 && Lengths(done) && forall d :: d in done ==> !Zero(d, n)
    ensures forall d :: d in done ==> !Zero(d, n / k)
  {
    var m := ZeroElim(k, n);
    assert n / k == m;
    forall d | d in done ensures !Zero(d, m) {
      if Zero(d, m) { ZeroScale(d, m, k); }
    }
  }

  /** The first kernel length that divides is prime. */
  lemma HeadPrime(n: pos, done: seq<int>, ks: seq<int>)
    requires Lengths(done) && Lengths(ks) && Rising(done + ks) && PrimeClosed(done + ks)
    requires (forall k :: k in done ==> !Zero(k, n)) && ks != [] && n % ks[0] == 0
    ensures Prime(ks[0])
  {
    var k, all := ks[0], done + ks;
    var q := PrimeFactor(k);
    assert all[|done|] == k;
    assert q in all;
    if q != k {
      assert q in done by { EarlierOf(done, ks, q); }
      ZeroTrans(q, k, n);
    }
  }

  lemma EarlierOf(done: seq<int>, ks: seq<int>, q: int)
    requires ks != [] && Rising(done + ks) && q in done + ks && q < ks[0]
    ensures q in done
  {
    var all := done + ks;
    var j :| 0 <= j < |all| && all[j] == q;
    assert all[|done|] == ks[0];
  }

  // ----- descending kernel lengths

  lemma {:induction false} UsefulFalling(n: pos, ks: seq<int>)
    requires Lengths(ks) && Falling(ks)
    ensures Falling(UsefulOf(n, ks))
  {
    if ks != [] {
      UsefulFalling(n, ks[1..]);
      var rest := UsefulOf(n, ks[1..]);
      forall i | 0 <= i < |rest| ensures ks[0] > rest[i] { assert rest[i] in ks[1..]; }
    }
  }

  /** The least length that reaches the target, if the largest does. */
  lemma {:induction false} PickNearest(useful: seq<int>, target: int)
    requires useful != [] && Falling(useful) && target <= useful[0]
    ensures var k := Pick(useful, target); k >= target && forall l :: l in useful && l >= target ==> k <= l
  {
    if |useful| > 1 {
      var rest := useful[1..];
      assert useful == [useful[0]] + rest;
      if useful[1] >= target {
        PickNearest(rest, target);
      } else {
        forall l | l in useful && l >= target ensures useful[0] <= l {
          var i :| 0 <= i < |useful| && useful[i] == l;
        }
      }
    }
  }

  /** Where the computed root of b times b is b, it is split evenly. */
  lemma SquareSplit(ks: seq<int>, b: pos, target: ((int, int)) -> int)
    requires Lengths(ks) && Falling(ks) && b in ks && forall base :: target((b * b, base)) == b && target((b, base)) == b
    ensures Picked(b * b, ks, target) == [b, b] && PickedRest(b * b, ks, target) == 1
  {
    hide Falling, UsefulOf, Pick, Picked, PickedRest;
    DivBy(b, b);
    DivBy(b, 1);
    PicksNearest(b * b, ks, b, target);
    PicksNearest(b, ks, b, target);
    NothingDividesOne(ks);
    PicksNone(1, ks, target);
  }

  lemma NothingDividesOne(ks: seq<int>)
    requires Lengths(ks)
    ensures UsefulOf(1, ks) == []
  {
    forall k ensures k !in UsefulOf(1, ks) {}
  }

  lemma PicksNearest(n: pos, ks: seq<int>, b: pos, target: ((int, int)) -> int)
    requires Lengths(ks) && Falling(ks) && b in ks && n % b == 0 && forall base :: target((n, base)) == b
    ensures n / b > 0 && Picked(n, ks, target) == [b] + Picked(n / b, ks, target) && PickedRest(n, ks, target) == PickedRest(n / b, ks, target)
  {
    var useful := UsefulOf(n, ks);
    UsefulFalling(n, ks);
    assert b in useful;
    var i :| 0 <= i < |useful| && useful[i] == b;
    assert useful[0] >= b;
    PickNearest(useful, b);
    PicksOne(n, ks, target);
  }

  /** What the largest kernel length that divides does not reach has the smallest picked. */
  lemma {:induction false} PickUnreached(useful: seq<int>, target: int)
    requires useful != [] && Falling(useful) && target > useful[0]
    ensures forall l :: l in useful ==> Pick(useful, target) <= l
  {
    if |useful| > 1 {
      var rest := useful[1..];
      assert useful == [useful[0]] + rest && useful[0] > useful[1] && rest[0] in rest;
      PickUnreached(rest, target);
    }
  }

  /** Dividing in order takes the largest every time. */
  lemma {:induction false} InOrderGreedy(n: pos, done: seq<int>, ks: seq<int>)
    requires Lengths(done) && Lengths(ks) && Falling(done + ks) && forall k :: k in done ==> !Zero(k, n)
    ensures Lengths(done + ks) && Greedy(n, done + ks, InOrder(n, ks))
    decreases |ks|, n
  {
    hide InOrder, Falling;
    if ks == [] {
      NoneLeft(n, ks);
    } else if n % ks[0] == 0 {
      TakesHead(n, ks);
      StillNone(n, done, ks[0]);
      InOrderGreedy(n / ks[0], done, ks);
      forall k | k in done + ks && n % k == 0 ensures k <= ks[0] { LaterLess(done, ks, k); }
      assert InOrder(n, ks)[1..] == InOrder(n / ks[0], ks) && ks[0] in done + ks;
    } else {
      SkipsHead(n, ks);
      assert done + ks == (done + [ks[0]]) + ks[1..];
      InOrderGreedy(n, done + [ks[0]], ks[1..]);
    }
  }

  lemma LaterLess(done: seq<int>, ks: seq<int>, k: int)
    requires ks != [] && Falling(done + ks) && k in done + ks && k !in done
    ensures k <= ks[0]
  {
    var all := done + ks;
    var j :| 0 <= j < |all| && all[j] == k;
    assert all[|done|] == ks[0];
  }

  // ----- the picked list is the shorter one

  /** What dividing in order leaves. */
  function Leftover(n: pos, ks: seq<int>): pos
    requires Lengths(ks)
    decreases |ks|, n
  {
    if ks == [] then n
    else if n % ks[0] == 0 then Quotient(n, ks[0]); Leftover(n / ks[0], ks)
    else Leftover(n, ks[1..])
  }

  lemma Swap(n: pos, p: pos, k: pos)
    requires Prime(p) && Prime(k) && p != k && Zero(p, n) && Zero(k, n)
    ensures Zero(k, n / p) && Zero(p, n / k) && n / p / k == n / k / p && n / p > 0 && n / k > 0
  {
    hide Prime;
    var m := ZeroElim(p, n);
    Euclid(k, p, m);
    if Zero(k, p) { PrimeDividesPrime(k, p); }
    var t := ZeroElim(k, m);
    assert t > 0 && m > 0;
    DivBy(p, m);
    DivBy(k, t);
    assert n == k * (p * t) by { assert p * (k * t) == k * (p * t); }
    DivBy(k, p * t);
    DivBy(p, t);
  }

  /** Dividing by a prime takes one factor less, if it is a kernel length. */
  ghost predicate OneLess(n: pos, ks: seq<int>, p: int)
    requires Lengths(ks) && p > 0
  {
    && n / p > 0 && |InOrder(n, ks)| == |InOrder(n / p, ks)| + (if p in ks then 1 else 0)
    && (p in ks ==> Leftover(n / p, ks) == Leftover(n, ks))
  }

  lemma {:induction false} PrimeStep(n: pos, done: seq<int>, ks: seq<int>, p: int)
    requires Lengths(done) && Lengths(ks) && Rising(done + ks) && PrimeClosed(done + ks)
    requires (forall k :: k in done ==> !Zero(k, n)) && Prime(p) && Zero(p, n)
    ensures OneLess(n, ks, p)
    decreases |ks|, n
  {
    if ks == [] {
      Quotient(n, p);
    } else {
      var k := ks[0];
      hide Prime, Rising, PrimeClosed, OneLess;
      if n % k != 0 {
        assert done + ks == (done + [k]) + ks[1..];
        PrimeStep(n, done + [k], ks[1..], p);
        StepSkips(n, ks, p);
      } else {
        HeadPrime(n, done, ks);
        Quotient(n, k);
        if p == k {
          StepTakes(n, ks);
        } else {
          Swap(n, p, k);
          StillNone(n, done, k);
          PrimeStep(n / k, done, ks, p);
          StepSwaps(n, ks, p);
        }
      }
    }
  }

  lemma StepTakes(n: pos, ks: seq<int>)
    requires Lengths(ks) && ks != [] && n % ks[0] == 0
    ensures OneLess(n, ks, ks[0])
  {
    TakesHead(n, ks);
  }

  lemma StepSwaps(n: pos, ks: seq<int>, p: pos)
    requires Lengths(ks) && ks != [] && n % ks[0] == 0 && Prime(p) && Prime(ks[0]) && p != ks[0] && Zero(p, n)
    requires n / ks[0] > 0 && OneLess(n / ks[0], ks, p)
    ensures OneLess(n, ks, p)
  {
    hide InOrder, Leftover, Prime;
    Swap(n, p, ks[0]);
    TakesHead(n, ks);
    TakesHead(n / p, ks);
  }

  lemma StepSkips(n: pos, ks: seq<int>, p: int)
    requires Lengths(ks) && ks != [] && n % ks[0] != 0 && p >= 2 && Zero(p, n) && OneLess(n, ks[1..], p)
    ensures OneLess(n, ks, p)
  {
    hide InOrder, Leftover;
    NotAfter(n, p, ks[0]);
    SkipsHead(n, ks);
    SkipsHead(n / p, ks);
    assert ks == [ks[0]] + ks[1..];
  }

  lemma NotAfter(n: pos, p: int, k: int)
    requires k >= 2 && n % k != 0 && p >= 2 && Zero(p, n)
    ensures p != k && n / p > 0 && (n / p) % k != 0
  {
    var q := ZeroElim(p, n);
    assert n / p == q;
    if Zero(k, q) { ZeroScale(k, q, p); }
  }

  lemma NoneLeft(n: pos, ks: seq<int>)
    requires ks == []
    ensures InOrder(n, ks) == [] && Leftover(n, ks) == n
  {
  }

  lemma TakesHead(n: pos, ks: seq<int>)
    requires Lengths(ks) && ks != [] && n % ks[0] == 0
    ensures 0 < n / ks[0] < n && InOrder(n, ks) == [ks[0]] + InOrder(n / ks[0], ks) && Leftover(n, ks) == Leftover(n / ks[0], ks)
  {
    Quotient(n, ks[0]);
  }

  lemma SkipsHead(n: pos, ks: seq<int>)
    requires Lengths(ks) && ks != [] && n % ks[0] != 0
    ensures InOrder(n, ks) == InOrder(n, ks[1..]) && Leftover(n, ks) == Leftover(n, ks[1..])
  {
  }

  ghost predicate PrimesIn(d: int, ks: seq<int>) { forall q :: Prime(q) && Zero(q, d) ==> q in ks }

  lemma SplitPrime(n: pos, d: pos, q: int)
    requires n % d == 0 && Prime(q) && Zero(q, d)
    ensures n / d > 0 && n / q > 0 && 0 < d / q < d && Zero(q, n) && (n / q) % (d / q) == 0 && (n / q) / (d / q) == n / d
    ensures forall p :: Prime(p) && Zero(p, d / q) ==> Zero(p, d)
  {
    assert q >= 2;
    hide Prime;
    var e, m := d / q, n / d;
    Whole(q, d);
    Whole(d, n);
    assert n == q * (e * m) by { assert (q * e) * m == q * (e * m); }
    DivBy(q, e * m);
    DivBy(e, m);
    forall p | Prime(p) && Zero(p, e) ensures Zero(p, d) { ZeroScale(p, e, q); }
  }

  lemma DivBy(a: pos, x: pos)
    ensures a * x / a == x && a * x % a == 0 && a * x > 0
  {
    ModUnique(a * x, a, x, 0);
  }

  lemma Whole(k: pos, n: pos)
    requires n % k == 0
    ensures n == k * (n / k) && n / k > 0 && (k > 1 ==> n / k < n)
  {
    if k > 1 { Quotient(n, k); }
  }

  /** Dividing by a product of kernel lengths that are prime takes at least one factor, and leaves the same. */
  lemma {:induction false} DivisorStep(n: pos, ks: seq<int>, d: pos)
    requires Lengths(ks) && Rising(ks) && PrimeClosed(ks) && n % d == 0 && PrimesIn(d, ks)
    ensures n / d > 0 && |InOrder(n / d, ks)| + (if d > 1 then 1 else 0) <= |InOrder(n, ks)| && Leftover(n / d, ks) == Leftover(n, ks)
    decreases d
  {
    if d > 1 {
      var q := PrimeFactor(d);
      hide Prime, InOrder, Leftover, Rising, PrimeClosed;
      SplitPrime(n, d, q);
      assert [] + ks == ks;
      PrimeStep(n, [], ks, q);
      DivisorStep(n / q, ks, d / q);
    }
  }

  lemma LeftoverStays(n: pos, ks: seq<int>)
    requires Lengths(ks) && forall k :: k in ks ==> n % k != 0
    ensures Leftover(n, ks) == n
    decreases |ks|
  {
    if ks != [] {
      forall k | k in ks[1..] ensures n % k != 0 { assert k in ks; }
      assert ks[0] in ks;
      LeftoverStays(n, ks[1..]);
    }
  }

  /** What picking leaves. */
  function PickedRest(n: pos, ks: seq<int>, target: ((int, int)) -> int): pos
    requires Lengths(ks)
    decreases n
  {
    var useful := UsefulOf(n, ks);
    if useful == [] then n
    else
      var k := Pick(useful, target((n, useful[0])));
      Quotient(n, k);
      PickedRest(n / k, ks, target)
  }

  lemma PicksOne(n: pos, ks: seq<int>, target: ((int, int)) -> int)
    requires Lengths(ks) && UsefulOf(n, ks) != []
    ensures var useful := UsefulOf(n, ks); var k := Pick(useful, target((n, useful[0])));
      && k in ks && k >= 2 && n % k == 0 && 0 < n / k < n
      && Picked(n, ks, target) == [k] + Picked(n / k, ks, target) && PickedRest(n, ks, target) == PickedRest(n / k, ks, target)
  {
    Quotient(n, Pick(UsefulOf(n, ks), target((n, UsefulOf(n, ks)[0]))));
  }

  lemma PicksNone(n: pos, ks: seq<int>, target: ((int, int)) -> int)
    requires Lengths(ks) && UsefulOf(n, ks) == []
    ensures Picked(n, ks, target) == [] && PickedRest(n, ks, target) == n && forall k :: k in ks ==> n % k != 0
  {
    forall k | k in ks ensures n % k != 0 { assert k !in UsefulOf(n, ks); }
  }

  /** The picked list is no longer, and leaves the same. */
  lemma {:induction false} PickedShorter(n: pos, ks: seq<int>, target: ((int, int)) -> int)
    requires Lengths(ks) && Rising(ks) && PrimeClosed(ks)
    ensures |Picked(n, ks, target)| <= |InOrder(n, ks)| && PickedRest(n, ks, target) == Leftover(n, ks)
    decreases n
  {
    var useful := UsefulOf(n, ks);
    if useful == [] {
      forall k | k in ks ensures n % k != 0 { assert k !in useful; }
      LeftoverStays(n, ks);
    } else {
      var k := Pick(useful, target((n, useful[0])));
      hide InOrder, Leftover, Prime, Rising, UsefulOf;
      Quotient(n, k);
      assert PrimesIn(k, ks);
      hide PrimeClosed;
      DivisorStep(n, ks, k);
      PickedShorter(n / k, ks, target);
    }
  }
}
