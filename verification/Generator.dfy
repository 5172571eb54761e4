/** The search for a generator of the multiplicative group modulo n, and the index tables
    that Rader's algorithm builds from it.
 */
module Generator {
  import opened Integers
  import opened NumberTheory

  function PowMod(n: pos, c: int, k: nat): int { PowZ(c, k) % n }

  /** The powers c^0, ..., c^(n-2) are pairwise different modulo n. */
  ghost predicate DistinctPowers(n: pos, c: int) {
    forall i: nat, j: nat :: i < j < n - 1 ==> PowMod(n, c, i) != PowMod(n, c, j)
  }

  lemma PowModStep(n: pos, c: int, k: nat)
    ensures PowMod(n, c, k) * c % n == PowMod(n, c, k + 1)
  {
    var x := PowZ(c, k);
    ModShift(x % n * c, n, (x / n) * c);
    assert x % n * c + n * ((x / n) * c) == c * x by {
      assert x == n * (x / n) + x % n;
      assert (n * (x / n)) * c == n * ((x / n) * c);
    }
  }

  lemma DistinctIffOrder(n: int, c: int)
    requires Prime(n) && n > 2 && !Zero(n, c)
    ensures DistinctPowers(n, c) <==> IsOrder(n, c, n - 1)
  {
    var e := OrderExists(n, c);
    forall i: nat, k: nat ensures PowMod(n, c, i) == PowMod(n, c, i + k) <==> One(n, c, k) {
      EqualPowers(n, c, i, k);
      ModEqual(n, PowZ(c, i), PowZ(c, i + k));
    }
    if e < n - 1 {
      assert PowMod(n, c, 0) == PowMod(n, c, 0 + e);
    } else {
      forall i: nat, j: nat | i < j < n - 1 ensures PowMod(n, c, i) != PowMod(n, c, j) {
        assert PowMod(n, c, i) == PowMod(n, c, i + (j - i)) <==> One(n, c, j - i);
      }
    }
  }

  /** The least candidate whose first n - 1 powers are pairwise different, or 0. */
  method FindGroupGenerator(n: nat) returns (g: int)
    ensures g != 0 ==> 2 <= g < n && DistinctPowers(n, g)
    ensures forall c :: 2 <= c < (if g == 0 then n else g) ==> !DistinctPowers(n, c)
    ensures Prime(n) && n > 2 ==> 2 <= g < n && IsOrder(n, g, n - 1)
  {
    var seen := new bool[n](_ => false);
    var cand := 2;
    while cand < n
      invariant cand == 2 || 2 < cand <= n
      invariant forall c :: 2 <= c < cand ==> !DistinctPowers(n, c)
      decreases n - cand
    {
      for i := 0 to n
        invariant forall j :: 0 <= j < i ==> !seen[j]
      {
        seen[i] := false;
      }
      var success := true;
      var x, i := 1, 1;
      ModUnique(1, n, 0, 1);
      while i < n
        invariant 1 <= i <= n && 0 <= x < n && x == PowMod(n, cand, i - 1)
        invariant forall v :: 0 <= v < n && seen[v] ==> exists k: nat :: k < i - 1 && PowMod(n, cand, k) == v
        invariant forall k: nat :: k < i - 1 ==> 0 <= PowMod(n, cand, k) < n && seen[PowMod(n, cand, k)]
        invariant forall k: nat, l: nat :: k < l < i - 1 ==> PowMod(n, cand, k) != PowMod(n, cand, l)
        decreases n - i
      {
        if seen[x] {
          success := false;
          break;
        }
        seen[x] := true;
        PowModStep(n, cand, i - 1);
        i, x := i + 1, x * cand % n;
      }
      if success {
        if Prime(n) {
          if Zero(n, cand) { ZeroSmall(n, cand); }
          DistinctIffOrder(n, cand);
        }
        return cand;
      }
      cand := cand + 1;
    }
    if Prime(n) && n > 2 {
      var h := PrimitiveRootExists(n);
      OrderUnit(n, h, n - 1);
      if h == 1 { OrderOfOne(n); }
      DistinctIffOrder(n, h);
    }
    return 0;
  }

  lemma OrderOfOne(p: int)
    requires Prime(p)
    ensures One(p, 1, 1)
  {
    ZeroIntro(p, 0);
    assert PowZ(1, 1) == 1 * PowZ(1, 0);
  }

  // ----- Rader's tables

  /** Names an exponent and a residue at which the tables are consulted. */
  ghost predicate Lookup(k: int, v: int) { true }

  /** perm lists 1..n-1 as the powers of a generator, and rev sends a residue to the negated
      exponent of that generator.
   */
  ghost predicate RaderTables(n: int, perm: seq<int>, rev: seq<int>) {
    && n > 2 && |perm| == n - 1 && |rev| == n
    && perm[0] == 1
    && (forall k :: 0 <= k < n - 1 ==> 1 <= perm[k] < n)
    && (forall v :: 1 <= v < n ==> 0 <= rev[v] < n - 1)
    && (forall k, v {:trigger Lookup(k, v)} ::
      && (0 <= k < n - 1 ==> rev[perm[k]] == Mod(n - 1 - k, n - 1))
      && (1 <= v < n ==> 0 <= Mod(n - 1 - rev[v], n - 1) < n - 1 && perm[Mod(n - 1 - rev[v], n - 1)] == v))
    && (forall j, k {:trigger MulMod(perm[j], perm[k], n)} :: 0 <= j < n - 1 && 0 <= k < n - 1 ==>
          MulMod(perm[j], perm[k], n) == perm[Mod(j + k, n - 1)])
  }

  predicate PermInRange(n: int, perm: seq<int>) {
    |perm| == n - 1 && forall k :: 0 <= k < n - 1 ==> 1 <= perm[k] < n
  }

  predicate RevInRange(n: int, rev: seq<int>) {
    |rev| == n && forall v :: 1 <= v < n ==> 0 <= rev[v] < n - 1
  }

  lemma TablesInRange(n: int, perm: seq<int>, rev: seq<int>)
    requires RaderTables(n, perm, rev)
    ensures PermInRange(n, perm) && RevInRange(n, rev)
  {
  }

  lemma PermAt(n: int, perm: seq<int>, rev: seq<int>, k: int)
    requires RaderTables(n, perm, rev) && 0 <= k < n - 1
    ensures rev[perm[k]] == Mod(n - 1 - k, n - 1)
  {
    assert Lookup(k, 1);
  }

  lemma RevAt(n: int, perm: seq<int>, rev: seq<int>, v: int)
    requires RaderTables(n, perm, rev) && 1 <= v < n
    ensures 0 <= Mod(n - 1 - rev[v], n - 1) < n - 1 && perm[Mod(n - 1 - rev[v], n - 1)] == v
  {
    assert Lookup(0, v);
  }

  lemma PowModProduct(n: pos, g: int, j: nat, k: nat)
    ensures MulMod(PowMod(n, g, j), PowMod(n, g, k), n) == PowMod(n, g, j + k)
  {
    PowZAdd(g, j, k);
    var x, y := PowZ(g, j), PowZ(g, k);
    ModCongruent(n, x);
    ModCongruent(n, y);
    ZeroCombine(n, x - x % n, y - y % n, y, x % n);
    assert (x - x % n) * y + (y - y % n) * (x % n) == x * y - (x % n) * (y % n);
    ModEqual(n, (x % n) * (y % n), x * y);
  }

  lemma PowModWraps(n: int, g: int, j: nat)
    requires Prime(n) && IsOrder(n, g, n - 1)
    ensures PowMod(n, g, j) == PowMod(n, g, Mod(j, n - 1))
  {
    var m := n - 1;
    OrderUnit(n, g, m);
    var q, r := j / m, Mod(j, m);
    OneMultiple(n, g, m, q);
    EqualPowers(n, g, r, m * q);
    ModEqual(n, PowZ(g, r), PowZ(g, r + m * q));
    assert j == r + m * q;
  }

  method PrepareRaderPermutations(n: int, perm: array<int>, rev: array<int>)
    requires Prime(n) && n > 2
    requires perm.Length == n - 1 && rev.Length == n && perm != rev
    modifies perm, rev
    ensures RaderTables(n, perm[..], rev[..])
  {
    var m := n - 1;
    var g := FindGroupGenerator(n);
    var gkmodn := 1;
    OrderUnit(n, g, m);
    ModUnique(1, n, 0, 1);
    DistinctIffOrder(n, g);
    for k := 0 to m
      invariant gkmodn == PowMod(n, g, k)
      invariant forall j :: 0 <= j < k ==> perm[j] == PowMod(n, g, j) && 1 <= perm[j] < n
      invariant forall j :: 0 <= j < k ==> rev[PowMod(n, g, j)] == Mod(m - j, m)
    {
      PowerNonzero(n, g, k);
      PowModStep(n, g, k);
      perm[k] := gkmodn;
      rev[gkmodn] := (m - k) % m;
      gkmodn := gkmodn * g % n;
    }
    TablesFromPowers(n, g, perm[..], rev[..]);
  }

  lemma TablesFromPowers(n: int, g: int, perm: seq<int>, rev: seq<int>)
    requires Prime(n) && n > 2 && IsOrder(n, g, n - 1) && DistinctPowers(n, g)
    requires |perm| == n - 1 && |rev| == n
    requires forall j :: 0 <= j < n - 1 ==> perm[j] == PowMod(n, g, j) && 1 <= perm[j] < n
    requires forall j :: 0 <= j < n - 1 ==> rev[PowMod(n, g, j)] == Mod(n - 1 - j, n - 1)
    ensures RaderTables(n, perm, rev)
  {
    var m := n - 1;
    ModUnique(1, n, 0, 1);
    OrderUnit(n, g, m);
    assert PowMod(n, g, 0) == 1;
    hide Mod, MulMod, PowMod, DistinctPowers, IsOrder, Prime;
    forall v | 1 <= v < n
      ensures 0 <= rev[v] < m
      ensures 0 <= Mod(m - rev[v], m) < m && perm[Mod(m - rev[v], m)] == v
    {
      var k := FindPower(n, g, v);
      NegateTwice(m, k);
    }
    forall j, k {:trigger MulMod(perm[j], perm[k], n)} | 0 <= j < m && 0 <= k < m
      ensures 0 <= Mod(j + k, m) < m && MulMod(perm[j], perm[k], n) == perm[Mod(j + k, m)]
    {
      ModSplit(j + k, m);
      PowModProduct(n, g, j, k);
      PowModWraps(n, g, j + k);
    }
  }

  lemma NegateTwice(m: pos, k: int)
    requires 0 <= k < m
    ensures 0 <= Mod(m - k, m) < m && Mod(m - Mod(m - k, m), m) == k
  {
    if k == 0 {
      ModUnique(m, m, 1, 0);
    } else {
      ModUnique(m - k, m, 0, m - k);
      ModUnique(k, m, 0, k);
    }
  }

  /** A generator reaches every nonzero residue. */
  lemma FindPower(n: int, g: int, v: int) returns (k: nat)
    requires Prime(n) && n > 2 && DistinctPowers(n, g) && !Zero(n, g)
    requires 1 <= v < n
    ensures k < n - 1 && PowMod(n, g, k) == v
  {
    var m := n - 1;
    var f := (i: int) => if 0 <= i < m then PowMod(n, g, i) else v;
    forall i | 0 <= i < n ensures 1 <= f(i) < 1 + m {
      if i < m { PowerNonzero(n, g, i); }
    }
    var i, j := Collision(f, n, 1, m);
    assert j == m;
    k := i;
  }
}
