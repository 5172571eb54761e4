/** Factor lists for the multi-level compositor. */
module Factorization {
  import opened Integers
  import opened NumberTheory
  import opened Factorize
  import opened KernelChoice

  ghost predicate Descending(fs: seq<int>) { forall i, j :: 0 <= i < j < |fs| ==> fs[i] >= fs[j] }

  /** A factor list of n, whatever was divided out of it so far leaving rest. */
  ghost predicate Splits(n: int, fs: seq<int>, rest: int) {
    rest > 0 && Product(fs) * rest == n && forall i :: 0 <= i < |fs| ==> fs[i] >= 2
  }

  lemma Regroup(a: int, b: int, c: int)
    ensures a * (b * c) == (a * b) * c && a * (b * c) == b * (a * c)
  {
  }

  lemma {:induction false} ProductAppend(fs: seq<int>, f: int)
    ensures Product(fs + [f]) == Product(fs) * f
  {
    if fs == [] {
      assert (fs + [f])[1..] == [];
    } else {
      assert (fs + [f])[1..] == fs[1..] + [f];
      ProductAppend(fs[1..], f);
      Regroup(fs[0], Product(fs[1..]), f);
    }
  }

  lemma SplitOff(n: int, fs: seq<int>, rest: int, f: int)
    requires Splits(n, fs, rest) && f >= 2 && rest % f == 0
    ensures Splits(n, fs + [f], rest / f) && rest / f < rest
  {
    var q := rest / f;
    ProperQuotient(rest, f);
    ProductAppend(fs, f);
    hide Product;
    Regroup(Product(fs), f, q);
  }

  lemma QuotientPositive(n: int, fs: seq<int>, rest: int)
    requires Splits(n, fs, rest)
    ensures rest > 0
  {
  }

  // ----- sorting

  function Insert(f: int, fs: seq<int>): seq<int> {
    if fs == [] || f >= fs[0] then [f] + fs else [fs[0]] + Insert(f, fs[1..])
  }

  lemma {:induction false} InsertAdds(f: int, fs: seq<int>)
    ensures multiset(Insert(f, fs)) == multiset(fs) + multiset{f}
  {
    if fs == [] || f >= fs[0] {
    } else {
      InsertAdds(f, fs[1..]);
      assert fs == [fs[0]] + fs[1..];
    }
  }

  lemma {:induction false} InsertSorts(f: int, fs: seq<int>)
    requires Descending(fs)
    ensures Descending(Insert(f, fs))
    ensures forall i :: 0 <= i < |Insert(f, fs)| ==> Insert(f, fs)[i] == f || Insert(f, fs)[i] in fs
  {
    if fs == [] || f >= fs[0] {
    } else {
      InsertSorts(f, fs[1..]);
      forall x | x in fs[1..] ensures x <= fs[0] && x in fs {
        var i :| 0 <= i < |fs| - 1 && fs[1..][i] == x;
        assert fs[i + 1] == x;
      }
    }
  }

  lemma {:induction false} InsertMultiplies(f: int, fs: seq<int>)
    ensures Product(Insert(f, fs)) == f * Product(fs)
  {
    if fs == [] || f >= fs[0] {
      assert ([f] + fs)[1..] == fs;
    } else {
      InsertMultiplies(f, fs[1..]);
      assert ([fs[0]] + Insert(f, fs[1..]))[1..] == Insert(f, fs[1..]);
      Regroup(fs[0], f, Product(fs[1..]));
    }
  }

  /** sorted is fs in descending order. */
  ghost predicate SortOf(sorted: seq<int>, fs: seq<int>) {
    Descending(sorted) && multiset(sorted) == multiset(fs) && Product(sorted) == Product(fs)
  }

  lemma SortStep(sorted: seq<int>, fs: seq<int>, f: int)
    requires SortOf(sorted, fs)
    ensures SortOf(Insert(f, sorted), fs + [f])
  {
    InsertSorts(f, sorted);
    InsertAdds(f, sorted);
    assert Product(sorted) == Product(fs);
    assert Product(Insert(f, sorted)) == Product(fs + [f]) by {
      hide *;
      InsertMultiplies(f, sorted);
      ProductAppend(fs, f);
      Commute(f, Product(fs));
    }
    hide Product, Insert, Descending;
  }

  lemma Commute(a: int, b: int)
    ensures a * b == b * a
  {
  }

  method SortDescending(fs: seq<int>) returns (sorted: seq<int>)
    ensures SortOf(sorted, fs)
  {
    sorted := [];
    assert SortOf(sorted, fs[..0]);
    hide SortOf;
    for i := 0 to |fs|
      invariant SortOf(sorted, fs[..i])
    {
      SortStep(sorted, fs[..i], fs[i]);
      assert fs[..i + 1] == fs[..i] + [fs[i]];
      sorted := Insert(fs[i], sorted);
    }
    assert fs[..|fs|] == fs;
  }

  // ----- factor lists

  /** A factor list of n in descending order. */
  ghost predicate FactorList(n: int, fs: seq<int>) {
    Product(fs) == n && Descending(fs) && forall i :: 0 <= i < |fs| ==> fs[i] >= 2
  }

  /** The computed root is less than one below the real one. */
  ghost predicate RootFits(root: int -> int) {
    forall m {:trigger root(m)} :: m >= 1 ==> 0 <= root(m) && m < (root(m) + 1) * (root(m) + 1)
  }

  ghost predicate AllPrime(fs: seq<int>) { forall i :: 0 <= i < |fs| ==> Prime(fs[i]) }

  /** factors are fs and the numbers in extra, which multiply to rest. They are its prime factors if
      no number below 23 divides rest and the root is not too small.
   */
  ghost predicate Extended(rest: int, root: int -> int, fs: seq<int>, extra: seq<int>, factors: seq<int>) {
    && multiset(factors) == multiset(fs + extra) && Splits(rest, extra, 1)
    && (NoFactorBelow(rest, 23) && RootFits(root) ==> AllPrime(extra))
  }

  /** The state of the division loop at an odd factor. */
  ghost predicate Dividing(rest: int, extra: seq<int>, left: int, factor: int) {
    && Splits(rest, extra, left) && factor >= 23 && factor % 2 == 1
    && (NoFactorBelow(rest, 23) ==> NoFactorBelow(left, factor) && AllPrime(extra))
  }

  lemma DivideOut(rest: int, extra: seq<int>, left: int, factor: int)
    requires Dividing(rest, extra, left, factor) && left % factor == 0
    ensures Dividing(rest, extra + [factor], left / factor, factor)
  {
    SplitOff(rest, extra, left, factor);
    ProperQuotient(left, factor);
    hide Splits, Prime;
    if NoFactorBelow(rest, 23) {
      LeastFactorPrime(left, factor);
      FewerFactors(left, left / factor, factor, factor);
    }
  }

  lemma FewerFactors(n: int, q: int, k: int, d: int)
    requires n == k * q && NoFactorBelow(n, d)
    ensures NoFactorBelow(q, d)
  {
    forall f | 2 <= f < d ensures !Zero(f, q) {
      if Zero(f, q) { ZeroScale(f, q, k); }
    }
  }

  lemma NextOdd(rest: int, extra: seq<int>, left: int, factor: int)
    requires Dividing(rest, extra, left, factor) && left % factor != 0
    ensures Dividing(rest, extra, left, factor + 2)
  {
    hide Splits, AllPrime;
    if NoFactorBelow(rest, 23) {
      forall f | 2 <= f < factor + 2 ensures !Zero(f, left) {
        if f == factor + 1 { Excluded(left, 2, f); }
      }
    }
  }

  /** What is left when the loop ends is 1 or prime. */
  lemma DivisionEnds(rest: int, root: int -> int, extra: seq<int>, left: int, factor: int)
    requires Dividing(rest, extra, left, factor) && factor >= root(left) + 1
    ensures Splits(rest, if left > 1 then extra + [left] else extra, 1)
    ensures NoFactorBelow(rest, 23) && RootFits(root) ==> AllPrime(if left > 1 then extra + [left] else extra)
  {
    if left > 1 {
      ModUnique(left, left, 1, 0);
      SplitOff(rest, extra, left, left);
      if NoFactorBelow(rest, 23) && RootFits(root) {
        assert left < (root(left) + 1) * (root(left) + 1);
        RootPassed(left, factor, root(left) + 1);
        SquareRootSuffices(left, factor);
        ZeroIntro(left, 1);
        LeastFactorPrime(left, left);
      }
    }
  }

  lemma RootPassed(n: int, d: pos, s: int)
    requires 0 <= n < s * s && 0 < s <= d
    ensures d > n / d
  {
    var q := n / d;
    assert n == d * q + n % d;
    assert d * d == s * s + (d - s) * (d + s);
    assert d * (q - d) == d * q - d * d;
    NegativeFactor(d, q - d);
  }

  lemma NegativeFactor(d: pos, x: int)
    requires d * x < 0
    ensures x < 0
  {
  }

  /** Divides the odd numbers from 23 up to the computed root out of the rest, and appends what is
      left. root is the rounded square root.
   */
  /** How far the division loop has to go. */
  function Ahead(left: pos, factor: int): nat { if factor > left then 0 else left - factor + 1 }

  /** What the division loop still appends, before a new factor is tried. */
  function PrimesFrom(left: pos, factor: int, root: int -> int): seq<int>
    requires factor >= 23 && forall m :: m >= 1 ==> root(m) <= m
    decreases left, Ahead(left, factor), if Ahead(left, factor) == 0 then 0 else 2
  {
    if factor < root(left) + 1 then PrimesWith(left, factor, root) else if left > 1 then [left] else []
  }

  /** And while one is divided out. */
  function PrimesWith(left: pos, factor: int, root: int -> int): seq<int>
    requires factor >= 23 && forall m :: m >= 1 ==> root(m) <= m
    decreases left, Ahead(left, factor), 1
  {
    if left % factor == 0 then ProperQuotient(left, factor); [factor] + PrimesWith(left / factor, factor, root)
    else PrimesFrom(left, factor + 2, root)
  }

  lemma PrimesTry(left: pos, factor: int, root: int -> int)
    requires factor >= 23 && forall m :: m >= 1 ==> root(m) <= m
    ensures PrimesFrom(left, factor, root) ==
      if factor < root(left) + 1 then PrimesWith(left, factor, root) else if left > 1 then [left] else []
    ensures left % factor != 0 ==> PrimesWith(left, factor, root) == PrimesFrom(left, factor + 2, root)
  {
  }

  lemma PrimesTake(left: pos, factor: int, root: int -> int, extra: seq<int>)
    requires factor >= 23 && left % factor == 0 && forall m :: m >= 1 ==> root(m) <= m
    ensures left / factor > 0 && extra + PrimesWith(left, factor, root) == (extra + [factor]) + PrimesWith(left / factor, factor, root)
  {
    ProperQuotient(left, factor);
    hide PrimesFrom;
  }

  method FactorizePrimes(n: pos, fs: seq<int>, rest: pos, root: int -> int) returns (factors: seq<int>, ghost extra: seq<int>)
    requires Splits(n, fs, rest) && forall m :: m >= 1 ==> root(m) <= m
    ensures FactorList(n, factors)
    ensures Extended(rest, root, fs, extra, factors) && extra == PrimesFrom(rest, 23, root)
  {
    var left := rest;
    factors, extra := fs, [];
    var factor := 23;
    hide *;
    StartDividing(rest);
    while factor < root(left) + 1
      invariant left > 0 && Splits(n, factors, left) && factor >= 23
      invariant factors == fs + extra && Dividing(rest, extra, left, factor)
      invariant extra + PrimesFrom(left, factor, root) == PrimesFrom(rest, 23, root)
      decreases left - factor
    {
      ghost var start := left;
      PrimesTry(left, factor, root);
      while left % factor == 0
        invariant 0 < left <= start && Splits(n, factors, left)
        invariant factors == fs + extra && Dividing(rest, extra, left, factor)
        invariant extra + PrimesWith(left, factor, root) == PrimesFrom(rest, 23, root)
        decreases left
      {
        SplitOff(n, factors, left, factor);
        PrimesTake(left, factor, root, extra);
        DivideOut(rest, extra, left, factor);
        QuotientPositive(n, factors + [factor], left / factor);
        left := left / factor;
        assert fs + (extra + [factor]) == fs + extra + [factor];
        factors, extra := factors + [factor], extra + [factor];
      }
      NextOdd(rest, extra, left, factor);
      PrimesTry(left, factor, root);
      factor := factor + 2;
    }
    DivisionEnds(rest, root, extra, left, factor);
    PrimesTry(left, factor, root);
    LastFactor(n, factors, left);
    if left > 1 {
      assert fs + (extra + [left]) == fs + extra + [left];
      factors, extra := factors + [left], extra + [left];
    }
    ghost var unsorted := factors;
    factors := SortDescending(factors);
    SortedList(n, rest, root, fs, extra, unsorted, factors);
  }

  lemma LastFactor(n: int, fs: seq<int>, left: int)
    requires Splits(n, fs, left)
    ensures Splits(n, if left > 1 then fs + [left] else fs, 1)
  {
    ProductAppend(fs, left);
    hide Product;
  }

  lemma SortedList(n: int, rest: int, root: int -> int, fs: seq<int>, extra: seq<int>, unsorted: seq<int>, factors: seq<int>)
    requires SortOf(factors, unsorted) && unsorted == fs + extra && Splits(n, unsorted, 1) && Splits(rest, extra, 1)
    requires NoFactorBelow(rest, 23) && RootFits(root) ==> AllPrime(extra)
    ensures FactorList(n, factors) && Extended(rest, root, fs, extra, factors)
  {
    hide Product;
    forall i | 0 <= i < |factors| ensures factors[i] >= 2 {
      assert factors[i] in multiset(unsorted);
    }
  }

  lemma StartDividing(rest: pos)
    ensures Dividing(rest, [], rest, 23)
  {
  }

  // ----- kernel lengths first

  /** Every prime below 23 is a kernel length. */
  ghost predicate SmallPrimes(ks: seq<int>) { forall q :: Prime(q) && q < 23 ==> q in ks }

  ghost predicate DividesNot(ks: seq<int>, m: int) { forall i :: 0 <= i < |ks| ==> !Zero(ks[i], m) }

  /** Numbers without a factor among the primes below 23. */
  lemma NothingSmall(ks: seq<int>, rest: int)
    requires SmallPrimes(ks) && DividesNot(ks, rest)
    ensures NoFactorBelow(rest, 23)
  {
    forall f | 2 <= f < 23 ensures !Zero(f, rest) {
      if Zero(f, rest) {
        var q := PrimeFactor(f);
        ZeroTrans(q, f, rest);
      }
    }
  }

  /** factors are kernel lengths, and numbers whose product no kernel length divides. With all
      small primes among the kernel lengths and a root that fits, those numbers are prime.
   */
  ghost predicate KernelsAndPrimes(n: int, ks: seq<int>, root: int -> int, factors: seq<int>, kernels: seq<int>, primes: seq<int>) {
    && multiset(factors) == multiset(kernels + primes) && Product(kernels) * Product(primes) == n
    && From(kernels, ks) && DividesNot(ks, Product(primes))
    && (SmallPrimes(ks) && RootFits(root) ==> AllPrime(primes))
  }

  lemma KernelsThenPrimes(n: int, ks: seq<int>, root: int -> int, factors: seq<int>, kernels: seq<int>, rest: int, primes: seq<int>)
    requires Splits(n, kernels, rest) && From(kernels, ks) && DividesNot(ks, rest) && Extended(rest, root, kernels, primes, factors)
    ensures KernelsAndPrimes(n, ks, root, factors, kernels, primes)
  {
    hide AllPrime, NoFactorBelow, SmallPrimes, DividesNot, RootFits, From;
    if SmallPrimes(ks) { NothingSmall(ks, rest); }
  }

  /** Then every factor is a kernel length or a prime that is none. */
  lemma KernelOrPrime(n: int, ks: seq<int>, root: int -> int, factors: seq<int>, kernels: seq<int>, primes: seq<int>, i: nat)
    requires KernelsAndPrimes(n, ks, root, factors, kernels, primes) && i < |factors|
    requires SmallPrimes(ks) && RootFits(root)
    ensures factors[i] in ks || Prime(factors[i])
    ensures factors[i] in kernels ==> factors[i] in ks
    ensures factors[i] in primes ==> Prime(factors[i]) && factors[i] !in ks
  {
    assert factors[i] in multiset(kernels + primes);
    hide Prime;
    if factors[i] in primes {
      ProductHolds(primes, factors[i]);
    }
  }

  lemma {:induction false} ProductHolds(fs: seq<int>, f: int)
    requires f in fs && f > 0
    ensures Zero(f, Product(fs))
  {
    if f == fs[0] {
      ZeroIntro(f, Product(fs[1..]));
    } else {
      ProductHolds(fs[1..], f);
      ZeroScale(f, Product(fs[1..]), fs[0]);
    }
  }

  const FLOATING_KERNELS := [2, 3, 4, 5, 6, 7, 8, 9, 10, 11, 12, 13, 14, 15, 16, 17, 18, 19, 20]

  /** The precompiled kernel lengths for floating point hold all small primes. */
  lemma FloatingSmallPrimes()
    ensures SmallPrimes(FLOATING_KERNELS)
  {
    forall q | Prime(q) && q < 23 ensures q in FLOATING_KERNELS {
      if q == 21 { ZeroIntro(3, 7); }
      if q == 22 { ZeroIntro(2, 11); }
      if q <= 20 { assert FLOATING_KERNELS[q - 2] == q; }
    }
  }

  lemma KeepsOff(ks: seq<int>, k: int, m: int, f: int)
    requires m > 0 && f >= 2 && m % f == 0 && !Zero(k, m)
    ensures !Zero(k, m / f)
  {
    ProperQuotient(m, f);
    if Zero(k, m / f) { ZeroScale(k, m / f, f); }
  }

  method FactorizeDescending(n: pos, ks: seq<int>, root: int -> int)
    returns (factors: seq<int>, ghost kernels: seq<int>, ghost primes: seq<int>)
    requires Lengths(ks) && forall m :: m >= 1 ==> root(m) <= m
    ensures FactorList(n, factors)
    ensures KernelsAndPrimes(n, ks, root, factors, kernels, primes)
    ensures kernels == InOrder(n, ks) && primes == PrimesFrom(Leftover(n, ks), 23, root)
  {
    var rest: pos := n;
    factors := [];
    assert ks[0..] == ks;
    hide InOrder, Leftover, PrimesFrom;
    for i := 0 to |ks|
      invariant Splits(n, factors, rest) && From(factors, ks)
      invariant forall j :: 0 <= j < i ==> !Zero(ks[j], rest)
      invariant factors + InOrder(rest, ks[i..]) == InOrder(n, ks) && Leftover(rest, ks[i..]) == Leftover(n, ks)
    {
      while rest % ks[i] == 0
        invariant Splits(n, factors, rest) && From(factors, ks)
        invariant forall j :: 0 <= j < i ==> !Zero(ks[j], rest)
        invariant factors + InOrder(rest, ks[i..]) == InOrder(n, ks) && Leftover(rest, ks[i..]) == Leftover(n, ks)
        decreases rest
      {
        hide Splits;
        TakesHead(rest, ks[i..]);
        SplitOff(n, factors, rest, ks[i]);
        forall j | 0 <= j < i ensures !Zero(ks[j], rest / ks[i]) { KeepsOff(ks, ks[j], rest, ks[i]); }
        QuotientPositive(n, factors + [ks[i]], rest / ks[i]);
        rest := rest / ks[i];
        factors := factors + [ks[i]];
      }
      SkipsHead(rest, ks[i..]);
      assert ks[i..][1..] == ks[i + 1..];
    }
    NoneLeft(rest, ks[|ks|..]);
    kernels := factors;
    factors, primes := FactorizePrimes(n, factors, rest, root);
    hide Splits, Extended;
    KernelsThenPrimes(n, ks, root, factors, kernels, rest, primes);
  }

  /** The kernel lengths that divide n, in the order of ks. */
  method Useful(n: pos, ks: seq<int>) returns (useful: seq<int>)
    requires Lengths(ks)
    ensures useful == UsefulOf(n, ks)
  {
    useful := [];
    for i := 0 to |ks|
      invariant useful + UsefulOf(n, ks[i..]) == UsefulOf(n, ks)
    {
      assert ks[i..] == [ks[i]] + ks[i + 1..];
      if n % ks[i] == 0 { useful := useful + [ks[i]]; }
    }
  }

  /** The state of the loop that picks. */
  ghost predicate Picking(n: pos, ks: seq<int>, target: ((int, int)) -> int, factors: seq<int>, rest: pos)
    requires Lengths(ks)
  {
    && Splits(n, factors, rest) && From(factors, ks)
    && factors + Picked(rest, ks, target) == Picked(n, ks, target) && PickedRest(rest, ks, target) == PickedRest(n, ks, target)
  }

  lemma PickStep(n: pos, ks: seq<int>, target: ((int, int)) -> int, factors: seq<int>, rest: pos)
    requires Lengths(ks) && Picking(n, ks, target, factors, rest) && UsefulOf(rest, ks) != []
    ensures var k := Pick(UsefulOf(rest, ks), target((rest, UsefulOf(rest, ks)[0])));
      k >= 2 && 0 < rest / k < rest && Picking(n, ks, target, factors + [k], rest / k)
  {
    hide Picked, PickedRest, Pick, UsefulOf, Splits;
    var k := Pick(UsefulOf(rest, ks), target((rest, UsefulOf(rest, ks)[0])));
    PicksOne(rest, ks, target);
    SplitOff(n, factors, rest, k);
  }

  lemma PickEnd(n: pos, ks: seq<int>, target: ((int, int)) -> int, factors: seq<int>, rest: pos)
    requires Lengths(ks) && Picking(n, ks, target, factors, rest) && UsefulOf(rest, ks) == []
    ensures Splits(n, factors, rest) && From(factors, ks) && DividesNot(ks, rest)
    ensures factors == Picked(n, ks, target) && rest == PickedRest(n, ks, target)
  {
    hide Picked, PickedRest, UsefulOf, Splits;
    PicksNone(rest, ks, target);
    forall i | 0 <= i < |ks| ensures !Zero(ks[i], rest) { assert ks[i] in ks; }
  }

  /** Splits off factors near the computed root of what is left; target is that root, which
      may be any number.
   */
  method FactorizeSquare(n: pos, ks: seq<int>, root: int -> int, target: ((int, int)) -> int)
    returns (factors: seq<int>, ghost kernels: seq<int>, ghost primes: seq<int>)
    requires Lengths(ks) && forall m :: m >= 1 ==> root(m) <= m
    ensures FactorList(n, factors)
    ensures KernelsAndPrimes(n, ks, root, factors, kernels, primes)
    ensures kernels == Picked(n, ks, target) && primes == PrimesFrom(PickedRest(n, ks, target), 23, root)
  {
    var rest: pos := n;
    factors := [];
    assert Picking(n, ks, target, factors, rest);
    hide *;
    var useful := Useful(rest, ks);
    while useful != []
      invariant Picking(n, ks, target, factors, rest) && useful == UsefulOf(rest, ks)
      decreases rest
    {
      var top := PickUseful(useful, target((rest, useful[0])));
      PickStep(n, ks, target, factors, rest);
      factors, rest := factors + [top], rest / top;
      useful := Useful(rest, ks);
    }
    PickEnd(n, ks, target, factors, rest);
    kernels := factors;
    factors, primes := FactorizePrimes(n, factors, rest, root);
    KernelsThenPrimes(n, ks, root, factors, kernels, rest, primes);
  }

  /** The first length that reaches the target while the next does not, else the last. */
  method PickUseful(useful: seq<int>, target: int) returns (top: int)
    requires useful != []
    ensures top == Pick(useful, target)
  {
    for i := 0 to |useful| - 1
      invariant Pick(useful[i..], target) == Pick(useful, target)
    {
      if useful[i] >= target && useful[i + 1] < target { return useful[i]; }
      assert useful[i..][1..] == useful[i + 1..];
    }
    top := useful[|useful| - 1];
  }

  lemma CountFactors(n: int, ks: seq<int>, root: int -> int, factors: seq<int>, kernels: seq<int>, primes: seq<int>)
    requires KernelsAndPrimes(n, ks, root, factors, kernels, primes)
    ensures |factors| == |kernels| + |primes|
  {
    assert |multiset(factors)| == |factors| && |multiset(kernels + primes)| == |kernels + primes|;
  }

  /** The shorter of both lists. With ascending kernel lengths that hold all their prime factors it is
      always the picked one, so the other is never used.
   */
  method FactorsOf(n: pos, ks: seq<int>, root: int -> int, target: ((int, int)) -> int)
    returns (factors: seq<int>, ghost kernels: seq<int>, ghost primes: seq<int>)
    requires Lengths(ks) && forall m :: m >= 1 ==> root(m) <= m
    ensures FactorList(n, factors)
    ensures KernelsAndPrimes(n, ks, root, factors, kernels, primes)
    ensures |factors| <= |InOrder(n, ks)| + |PrimesFrom(Leftover(n, ks), 23, root)|
    ensures |factors| <= |Picked(n, ks, target)| + |PrimesFrom(PickedRest(n, ks, target), 23, root)|
    ensures kernels == InOrder(n, ks) || kernels == Picked(n, ks, target)
    ensures Rising(ks) && PrimeClosed(ks) ==> kernels == Picked(n, ks, target)
  {
    hide *;
    var descending, k, p := FactorizeDescending(n, ks, root);
    var square, k', p' := FactorizeSquare(n, ks, root, target);
    CountFactors(n, ks, root, descending, k, p);
    CountFactors(n, ks, root, square, k', p');
    if Rising(ks) && PrimeClosed(ks) { PickedShorter(n, ks, target); }
    if |descending| < |square| {
      factors, kernels, primes := descending, k, p;
    } else {
      factors, kernels, primes := square, k', p';
    }
  }

  const FIXED_KERNELS := [2, 4, 8, 16]

  /** The precompiled kernel lengths ascend and hold their prime factors. */
  lemma KernelListsRise()
    ensures Rising(FLOATING_KERNELS) && PrimeClosed(FLOATING_KERNELS)
    ensures Rising(FIXED_KERNELS) && PrimeClosed(FIXED_KERNELS)
  {
    forall k, q {:trigger Zero(q, k)} | k in FLOATING_KERNELS && Prime(q) && Zero(q, k) ensures q in FLOATING_KERNELS {
      if q > k { ZeroSmall(q, k); }
      assert FLOATING_KERNELS[q - 2] == q;
    }
    forall k, q {:trigger Zero(q, k)} | k in FIXED_KERNELS && Prime(q) && Zero(q, k) ensures q in FIXED_KERNELS {
      assert Power2(1) == 2 && Power2(2) == 4 && Power2(3) == 8 && Power2(4) == 16;
      PowersOfTwo(if k == 2 then 1 else if k == 4 then 2 else if k == 8 then 3 else 4, q);
    }
  }

  /** So with these 64 is split into 16 and 4, although 8 and 8 would be square. */
  lemma FloatingNotSquare(target: ((int, int)) -> int)
    ensures Picked(64, FLOATING_KERNELS, target) == [16, 4]
  {
    KernelListsRise();
    NotSquare(FLOATING_KERNELS, target);
  }

  /** The lengths for which kernels are generated. */
  const GENERATED_KERNELS := [40, 39, 38, 36, 35, 34, 33, 32, 30, 28, 26, 25, 24, 22, 21, 20, 19, 18, 17, 16, 15, 14, 13, 12, 11,
                              10, 9, 8, 7, 6, 5, 4, 3, 2]

  /** They descend and hold all small primes. */
  lemma GeneratedListFalls()
    ensures Falling(GENERATED_KERNELS) && SmallPrimes(GENERATED_KERNELS)
  {
    forall q | Prime(q) && q < 23 ensures q in GENERATED_KERNELS {
      assert GENERATED_KERNELS[35 - q] == q;
    }
  }
}
