/** Factors of transform lengths. */
module Factorize {
  import opened Integers
  import opened NumberTheory

  // ----- the smallest prime factor

  /** No number from 2 up to d divides n. */
  ghost predicate NoFactorBelow(n: int, d: int) { forall f :: 2 <= f < d ==> !Zero(f, n) }

  /** Multiples of 2 and 3 need no test once 2 and 3 are excluded. */
  lemma SkipMultiples(n: int, d: int)
    requires n > 0 && d >= 5 && d % 6 == 5 && NoFactorBelow(n, d)
    requires Mod(n, d) != 0 && Mod(n, d + 2) != 0
    ensures NoFactorBelow(n, d + 6)
  {
    forall f | 2 <= f < d + 6 ensures !Zero(f, n) {
      if f >= d && f != d && f != d + 2 {
        if f % 2 == 0 { Excluded(n, 2, f); } else { Excluded(n, 3, f); }
      }
    }
  }

  lemma Excluded(n: int, k: pos, f: pos)
    requires !Zero(k, n) && Zero(k, f)
    ensures !Zero(f, n)
  {
    if Zero(f, n) { ZeroTrans(k, f, n); }
  }

  lemma ProperQuotient(n: int, k: pos)
    requires n > 0 && k >= 2 && n % k == 0
    ensures 0 < n / k < n && n == k * (n / k)
  {
    var q := n / k;
    assert n == k * q;
    if q <= 0 { MulGrows(k, q - 1); }
    MulGrows(q, k - 1);
    assert k * q == q * (k - 1) + q;
  }

  lemma Cofactor(n: int, f: int)
    requires n > 0 && 2 <= f < n && Zero(f, n)
    ensures n / f >= 2 && Zero(n / f, n) && n == f * (n / f)
  {
    ProperQuotient(n, f);
    ModUnique(n, n / f, f, 0);
    if n / f == 1 { assert f * 1 == n; }
  }

  /** A number without a factor up to its square root has none but itself. */
  lemma SquareRootSuffices(n: int, d: int)
    requires n > 1 && d >= 2 && d > n / d && NoFactorBelow(n, d)
    ensures NoFactorBelow(n, n)
  {
    forall f | d <= f < n ensures !Zero(f, n) {
      if Zero(f, n) {
        Cofactor(n, f);
        Smaller(n, d, f, n / f);
      }
    }
  }

  lemma Smaller(n: int, d: pos, f: int, q: int)
    requires n == f * q && f >= d && q > 0 && d > n / d
    ensures q < d
  {
    assert n < d * d by {
      MulGrows(d, d - n / d);
      assert d * (d - n / d) == d * d - d * (n / d);
    }
    if q >= d {
      assert n == d * d + d * (q - d) + (f - d) * q;
      if q > d { MulGrows(d, q - d); }
      if f > d { MulGrows(q, f - d); }
    }
  }

  /** The least factor above 1 is prime. */
  lemma LeastFactorPrime(n: int, f: int)
    requires n > 0 && f >= 2 && Zero(f, n) && NoFactorBelow(n, f)
    ensures Prime(f) && (Prime(n) <==> f == n)
  {
    forall d | 2 <= d < f ensures !Zero(d, f) {
      if Zero(d, f) { ZeroTrans(d, f, n); }
    }
    if f > n { MulGrows(f, n / f); }
  }

  lemma NothingLeft(n: int, d: int)
    requires n > 0 && d >= 2 && d > Quot(n, d) && NoFactorBelow(n, d)
    ensures n > 1 ==> n >= 2 && Prime(n) && Zero(n, n) && NoFactorBelow(n, n)
    ensures n == 1 ==> !Prime(n)
  {
    if n > 1 {
      SquareRootSuffices(n, d);
      ZeroIntro(n, 1);
      LeastFactorPrime(n, n);
    }
  }

  function Quot(n: int, d: pos): int { n / d }

  method SmallestPrimeFactor(n: int) returns (f: int)
    requires n > 0
    ensures n == 1 ==> f == 1
    ensures n > 1 ==> f >= 2 && Prime(f) && Zero(f, n) && NoFactorBelow(n, f)
    ensures Prime(n) <==> n > 1 && f == n
  {
    hide Prime, Zero, NoFactorBelow, Mod, Quot;
    if Mod(n, 2) == 0 {
      Found(n, 2, 2);
      return 2;
    }
    if Mod(n, 3) == 0 {
      Found(n, 3, 3);
      return 3;
    }
    NoSmallFactor(n);
    var d := 5;
    while d <= Quot(n, d)
      invariant d >= 5 && d % 6 == 5 && NoFactorBelow(n, d)
      decreases n - d
    {
      DivisorFits(n, d);
      if Mod(n, d) == 0 {
        Found(n, d, d);
        return d;
      }
      if Mod(n, d + 2) == 0 {
        Found(n, d, d + 2);
        return d + 2;
      }
      SkipMultiples(n, d);
      d := d + 6;
    }
    NothingLeft(n, d);
    return n;
  }

  /** The factor the loop found, after the numbers below d. */
  lemma Found(n: int, d: int, f: int)
    requires n > 0 && f >= 2 && Mod(n, f) == 0
    requires if d < 5 then f == d && (d == 2 || (d == 3 && Mod(n, 2) != 0)) else NoFactorBelow(n, d)
    requires f == d || (f == d + 2 && d >= 5 && d % 2 == 1 && Mod(n, d) != 0)
    ensures n > 1 && Prime(f) && Zero(f, n) && NoFactorBelow(n, f) && (Prime(n) <==> f == n)
  {
    if f == d + 2 && Zero(d + 1, n) { ZeroTrans(2, d + 1, n); }
    LeastFactorPrime(n, f);
    if n == 1 { ZeroSmall(f, 1); }
  }

  lemma NoSmallFactor(n: int)
    requires n > 0 && Mod(n, 2) != 0 && Mod(n, 3) != 0
    ensures NoFactorBelow(n, 5)
  {
    forall f | 2 <= f < 5 ensures !Zero(f, n) {
      if f == 4 { Excluded(n, 2, 4); }
    }
  }

  lemma DivisorFits(n: int, d: pos)
    requires n > 0 && d >= 5 && d <= Quot(n, d)
    ensures d + 2 < n
  {
    assert n == d * (n / d) + n % d;
    MulGrows(n / d, d - 4);
    assert d * (n / d) == (n / d) * 4 + (n / d) * (d - 4);
  }

  // ----- lengths that are products of kernel lengths

  /** n is a product of numbers in ks. */
  ghost predicate Smooth(n: int, ks: seq<int>)
    decreases n
  {
    n == 1 || exists k :: k in ks && k >= 2 && n % k == 0 && 0 < n / k < n && Smooth(n / k, ks)
  }

  function Product(fs: seq<int>): int { if fs == [] then 1 else fs[0] * Product(fs[1..]) }

  /** All numbers of fs are kernel lengths. */
  ghost predicate From(fs: seq<int>, ks: seq<int>) { forall i :: 0 <= i < |fs| ==> fs[i] in ks }

  ghost predicate Kernels(ks: seq<int>) { 2 in ks && forall i :: 0 <= i < |ks| ==> ks[i] >= 2 }

  lemma {:induction false} SmoothGivesFactors(n: int, ks: seq<int>) returns (fs: seq<int>)
    requires n > 0 && Smooth(n, ks)
    ensures From(fs, ks) && Product(fs) == n
    decreases n
  {
    if n == 1 {
      fs := [];
    } else {
      var k :| k in ks && k >= 2 && n % k == 0 && 0 < n / k < n && Smooth(n / k, ks);
      var rest := SmoothGivesFactors(n / k, ks);
      fs := [k] + rest;
      assert fs[1..] == rest;
      ProperQuotient(n, k);
    }
  }

  lemma SmoothStep(k: int, n: int, ks: seq<int>)
    requires k in ks && k >= 2 && n > 0 && Smooth(n, ks)
    ensures k * n > 0 && Smooth(k * n, ks)
  {
    ModUnique(k * n, k, n, 0);
    MulGrows(k, n);
    ProperQuotient(k * n, k);
  }

  lemma {:induction false} FactorsGiveSmooth(fs: seq<int>, ks: seq<int>)
    requires Kernels(ks) && From(fs, ks)
    ensures Product(fs) > 0 && Smooth(Product(fs), ks)
  {
    if fs != [] {
      FactorsGiveSmooth(fs[1..], ks);
      SmoothStep(fs[0], Product(fs[1..]), ks);
    }
  }

  /** n without its factors f. */
  function Strip(n: pos, f: int): (m: pos)
    ensures m <= n
    decreases n
  {
    if f >= 2 && n % f == 0 then
      ProperQuotient(n, f);
      Strip(n / f, f)
    else n
  }

  function StripAll(n: pos, ks: seq<int>): (m: pos)
    decreases |ks|
  {
    if ks == [] then n else StripAll(Strip(n, ks[0]), ks[1..])
  }

  /** n is n without its factors f times a power of f. */
  lemma {:induction false} StripFactors(n: pos, f: int, ks: seq<int>)
    requires f in ks && Smooth(Strip(n, f), ks)
    ensures Smooth(n, ks)
    decreases n
  {
    if f >= 2 && n % f == 0 {
      ProperQuotient(n, f);
      StripFactors(n / f, f, ks);
      SmoothStep(f, n / f, ks);
    }
  }

  /** What the division loop reduces to 1 is a product of kernel lengths. */
  lemma {:induction false} StrippedIsSmooth(n: pos, rest: seq<int>, ks: seq<int>)
    requires StripAll(n, rest) == 1 && forall i :: 0 <= i < |rest| ==> rest[i] in ks
    ensures Smooth(n, ks)
    decreases |rest|
  {
    if rest != [] {
      StrippedIsSmooth(Strip(n, rest[0]), rest[1..], ks);
      StripFactors(n, rest[0], ks);
    }
  }

  /** Every prime factor of a kernel length is a kernel length. */
  ghost predicate PrimeClosed(ks: seq<int>) {
    forall k, q {:trigger Zero(q, k)} :: k in ks && Prime(q) && Zero(q, k) ==> q in ks
  }

  lemma {:induction false} SmoothPrimeFactor(n: pos, q: int, ks: seq<int>)
    requires PrimeClosed(ks) && Smooth(n, ks) && Prime(q) && Zero(q, n)
    ensures q in ks
    decreases n
  {
    if n == 1 {
      ZeroSmall(q, 1);
    } else {
      var k :| k in ks && k >= 2 && n % k == 0 && 0 < n / k < n && Smooth(n / k, ks);
      ProperQuotient(n, k);
      Euclid(q, k, n / k);
      if !Zero(q, k) { SmoothPrimeFactor(n / k, q, ks); }
    }
  }

  lemma {:induction false} StripDivides(n: pos, f: int, q: pos)
    requires Zero(q, Strip(n, f))
    ensures Zero(q, n)
    decreases n
  {
    if f >= 2 && n % f == 0 {
      ProperQuotient(n, f);
      StripDivides(n / f, f, q);
      ZeroScale(q, n / f, f);
    }
  }

  lemma {:induction false} StripRemoves(n: pos, f: int)
    requires f >= 2
    ensures !Zero(f, Strip(n, f))
    decreases n
  {
    if n % f == 0 {
      ProperQuotient(n, f);
      StripRemoves(n / f, f);
    }
  }

  /** A prime factor of the remainder is a factor of n and not one of the numbers divided out. */
  lemma {:induction false} StripAllFactor(n: pos, ks: seq<int>, q: int)
    requires Prime(q) && Zero(q, StripAll(n, ks)) && forall i :: 0 <= i < |ks| ==> ks[i] >= 2
    ensures Zero(q, n) && q !in ks
    decreases |ks|
  {
    if ks != [] {
      var m := Strip(n, ks[0]);
      StripAllFactor(m, ks[1..], q);
      StripDivides(n, ks[0], q);
      StripRemoves(n, ks[0]);
    }
  }

  /** With the primes among the kernel lengths, dividing greedily decides smoothness. */
  lemma StripDecidesSmooth(n: pos, ks: seq<int>)
    requires Kernels(ks) && PrimeClosed(ks)
    ensures StripAll(n, ks) == 1 <==> Smooth(n, ks)
  {
    if StripAll(n, ks) == 1 {
      StrippedIsSmooth(n, ks, ks);
    } else if Smooth(n, ks) {
      var q := PrimeFactor(StripAll(n, ks));
      StripAllFactor(n, ks, q);
      SmoothPrimeFactor(n, q, ks);
    }
  }

  // ----- the padded convolution length

  lemma {:induction false} StripPower(j: nat, f: int)
    requires f >= 2
    ensures exists i: nat :: i <= j && Strip(Power2(j), f) == Power2(i) && (f == 2 ==> i == 0)
    decreases j
  {
    if Power2(j) % f == 0 {
      ProperQuotient(Power2(j), f);
      var i := DivisorOfPower(j, f);
      StripPower(i, f);
    } else if f == 2 && j > 0 {
      ModUnique(Power2(j), 2, Power2(j - 1), 0);
    }
  }

  function Power2(j: nat): pos { if j == 0 then 1 else 2 * Power2(j - 1) }

  /** A quotient of a power of 2 is a power of 2. */
  lemma {:induction false} DivisorOfPower(j: nat, f: pos) returns (i: nat)
    requires f >= 2 && Power2(j) % f == 0
    ensures i < j && Power2(j) / f == Power2(i)
    decreases j, f
  {
    i := 0;
    if j == 0 {
      ModUnique(1, f, 0, 1);
    } else if f % 2 == 0 {
      ProperQuotient(Power2(j), f);
      var q := Power2(j) / f;
      assert 2 * Power2(j - 1) == 2 * ((f / 2) * q);
      ModUnique(Power2(j - 1), f / 2, q, 0);
      if f / 2 == 1 { i := j - 1; } else { i := DivisorOfPower(j - 1, f / 2); }
    } else {
      OddDividesPower(j, f);
    }
  }

  lemma {:induction false} OddDividesPower(j: nat, f: pos)
    requires f % 2 == 1 && f > 1
    ensures Power2(j) % f != 0
  {
    var q := PrimeFactor(f);
    if Power2(j) % f == 0 {
      ZeroTrans(q, f, Power2(j));
      PowersOfTwo(j, q);
    }
  }

  lemma {:induction false} PowersOfTwo(j: nat, q: int)
    requires Prime(q) && Zero(q, Power2(j))
    ensures q == 2
  {
    if j == 0 {
      ZeroSmall(q, 1);
    } else {
      Euclid(q, 2, Power2(j - 1));
      if Zero(q, 2) {
        if q > 2 { ZeroSmall(q, 2); }
      } else {
        PowersOfTwo(j - 1, q);
      }
    }
  }

  /** Powers of 2 are found by the division loop. */
  lemma {:induction false} PowerStrips(j: nat, ks: seq<int>)
    requires (j == 0 || 2 in ks) && forall i :: 0 <= i < |ks| ==> ks[i] >= 2
    ensures StripAll(Power2(j), ks) == 1
    decreases |ks|
  {
    if ks != [] {
      StripPower(j, ks[0]);
      var i: nat :| i <= j && Strip(Power2(j), ks[0]) == Power2(i) && (ks[0] == 2 ==> i == 0);
      if ks[0] != 2 && j > 0 { assert 2 in ks[1..]; }
      PowerStrips(i, ks[1..]);
    }
  }

  lemma {:induction false} PowerAbove(n: pos) returns (j: nat)
    ensures n <= Power2(j) && (n == 1 ==> j == 0) && Power2(j) < 2 * n
    decreases n
  {
    if n == 1 {
      j := 0;
    } else {
      var i := PowerAbove((n + 1) / 2);
      j := i + 1;
    }
  }

  /** The least length from n on that the division loop reduces to 1. */
  ghost predicate NextLength(n: int, ks: seq<int>, length: int) {
    0 < n <= length && StripAll(length, ks) == 1 && forall l: pos :: n <= l < length ==> StripAll(l, ks) != 1
  }

  method NextLengthFactorableBy(n: pos, ks: seq<int>) returns (length: pos)
    requires Kernels(ks)
    ensures n <= length < 2 * n
    ensures NextLength(n, ks, length) && Smooth(length, ks)
    ensures PrimeClosed(ks) ==> forall l: pos :: n <= l < length ==> !Smooth(l, ks)
  {
    ghost var j := PowerAbove(n);
    PowerStrips(j, ks);
    length := n;
    while true
      invariant n <= length <= Power2(j) && forall l: pos :: n <= l < length ==> StripAll(l, ks) != 1
      decreases Power2(j) - length
    {
      var candidate := DivideOut(length, ks);
      if candidate == 1 { break; }
      length := length + 1;
    }
    StrippedIsSmooth(length, ks, ks);
    if PrimeClosed(ks) {
      forall l: pos | n <= l < length ensures !Smooth(l, ks) { StripDecidesSmooth(l, ks); }
    }
  }

  method DivideOut(n: pos, ks: seq<int>) returns (candidate: pos)
    requires Kernels(ks)
    ensures candidate == StripAll(n, ks)
  {
    candidate := n;
    for i := 0 to |ks|
      invariant StripAll(candidate, ks[i..]) == StripAll(n, ks)
    {
      ghost var stripped := Strip(candidate, ks[i]);
      assert ks[i..][1..] == ks[i + 1..];
      while candidate % ks[i] == 0
        invariant Strip(candidate, ks[i]) == stripped
        decreases candidate
      {
        ProperQuotient(candidate, ks[i]);
        candidate := candidate / ks[i];
      }
    }
  }
}
