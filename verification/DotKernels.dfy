/** Eight-point transforms of signed bytes: a scalar reference in Q0.14 and four vector kernels
    whose constants are signed bytes themselves, so that 127 stands for one.
 */
module DotKernels {

  /** Lanes of a vector register. */
  type lanes = seq<int>

  /** Real and imaginary parts of eight numbers alternate, each a signed byte. */
  ghost predicate IsBlock(x: lanes) { |x| == 16 && forall l :: 0 <= l < 16 ==> -128 <= x[l] < 128 }

  /** f[0] x[0] + ... + f[n - 1] x[n - 1] */
  function Dot(f: lanes, x: lanes, n: nat): int
    requires n <= |f| && n <= |x|
  {
    if n == 0 then 0 else Dot(f, x, n - 1) + f[n - 1] * x[n - 1]
  }

  function Reals(x: lanes): (r: lanes)
    requires |x| == 16
    ensures |r| == 8 && forall l :: 0 <= l < 8 ==> r[l] == x[2 * l]
  {
    [x[0], x[2], x[4], x[6], x[8], x[10], x[12], x[14]]
  }

  function Imags(x: lanes): (r: lanes)
    requires |x| == 16
    ensures |r| == 8 && forall l :: 0 <= l < 8 ==> r[l] == x[2 * l + 1]
  {
    [x[1], x[3], x[5], x[7], x[9], x[11], x[13], x[15]]
  }

  // ----- the scalar kernel

  const ZERO := 0
  const ONE := 1
  const NEG := 2
  const ROOT := 3
  const NEGROOT := 4

  ghost predicate Symbols(s: seq<int>) { |s| == 8 && forall l :: 0 <= l < 8 ==> 0 <= s[l] < 8 }

  /** Eight entries of three bits in three bytes. */
  function PackRow(s: seq<int>): (b: seq<int>)
    requires |s| == 8
    ensures |b| == 3
  {
    [s[0] + 8 * s[1] + 64 * (s[2] % 4), s[2] / 4 + 2 * s[3] + 16 * s[4] + 128 * (s[5] % 2), s[5] / 2 + 4 * s[6] + 32 * s[7]]
  }

  /** p shifted right by three bits n times. */
  function Shifted(p: int, n: nat): int
    decreases n
  {
    if n == 0 then p else Shifted(p / 8, n - 1)
  }

  function GetSymbol(row: seq<int>, column: nat): int
    requires |row| == 3
  {
    if column >= 8 then ZERO else Shifted(row[0] + 256 * row[1] + 65536 * row[2], column) % 8
  }

  /** The entries s from l on, as one number. */
  function Packed(s: seq<int>, l: nat): int
    requires |s| == 8 && l <= 8
    decreases 8 - l
  {
    if l == 8 then 0 else s[l] + 8 * Packed(s, l + 1)
  }

  lemma {:induction false} ShiftedPacked(s: seq<int>, l: nat, n: nat)
    requires Symbols(s) && l + n <= 8
    ensures Shifted(Packed(s, l), n) == Packed(s, l + n)
    decreases n
  {
    if n > 0 {
      assert Packed(s, l) / 8 == Packed(s, l + 1);
      ShiftedPacked(s, l + 1, n - 1);
    }
  }

  lemma PackedRow(s: seq<int>)
    requires Symbols(s)
    ensures var b := PackRow(s); b[0] + 256 * b[1] + 65536 * b[2] == Packed(s, 0)
  {
    assert Packed(s, 6) == s[6] + 8 * s[7];
    assert Packed(s, 3) == s[3] + 8 * (s[4] + 8 * (s[5] + 8 * Packed(s, 6)));
    assert Packed(s, 0) == s[0] + 8 * (s[1] + 8 * (s[2] + 8 * Packed(s, 3)));
    hide Packed;
  }

  /** Every packed entry reads back. */
  lemma PackedSymbols(s: seq<int>, column: nat)
    requires Symbols(s) && column < 8
    ensures GetSymbol(PackRow(s), column) == s[column]
  {
    PackedRow(s);
    ShiftedPacked(s, 0, column);
    FirstOfPacked(s, column);
    hide PackRow, Shifted, Packed;
  }

  lemma FirstOfPacked(s: seq<int>, l: nat)
    requires Symbols(s) && l < 8
    ensures Packed(s, l) % 8 == s[l]
  {
    var rest := Packed(s, l + 1);
    assert Packed(s, l) == s[l] + 8 * rest;
    hide Packed;
  }

  function RealSymbols(k: nat): (s: seq<int>)
    ensures Symbols(s)
  {
    if k == 0 then [ONE, ONE, ONE, ONE, ONE, ONE, ONE, ONE]
    else if k == 1 || k == 7 then [ONE, ROOT, ZERO, NEGROOT, NEG, NEGROOT, ZERO, ROOT]
    else if k == 2 || k == 6 then [ONE, ZERO, NEG, ZERO, ONE, ZERO, NEG, ZERO]
    else if k == 3 || k == 5 then [ONE, NEGROOT, ZERO, ROOT, NEG, ROOT, ZERO, NEGROOT]
    else [ONE, NEG, ONE, NEG, ONE, NEG, ONE, NEG]
  }

  function ImagSymbols(k: nat): (s: seq<int>)
    ensures Symbols(s)
  {
    if k == 1 then [ZERO, NEGROOT, NEG, NEGROOT, ZERO, ROOT, ONE, ROOT]
    else if k == 2 then [ZERO, NEG, ZERO, ONE, ZERO, NEG, ZERO, ONE]
    else if k == 3 then [ZERO, NEGROOT, ONE, NEGROOT, ZERO, ROOT, NEG, ROOT]
    else if k == 5 then [ZERO, ROOT, NEG, ROOT, ZERO, NEGROOT, ONE, NEGROOT]
    else if k == 6 then [ZERO, ONE, ZERO, NEG, ZERO, ONE, ZERO, NEG]
    else if k == 7 then [ZERO, ROOT, ONE, ROOT, ZERO, NEGROOT, NEG, NEGROOT]
    else [ZERO, ZERO, ZERO, ZERO, ZERO, ZERO, ZERO, ZERO]
  }

  /** The value of a symbol in Q0.14. */
  function Factor(s: int): int {
    if s == NEG then -16384 else if s == NEGROOT then -11585 else if s == ROOT then 11585 else if s == ONE then 16384 else 0
  }

  /** The cosine of m eighths of a turn in Q0.14; 11585 is the nearest to 16384 divided by the root of 2. */
  function Cosine(m: nat): int {
    var e := m % 8;
    if e == 0 then 16384 else if e == 1 || e == 7 then 11585 else if e == 2 || e == 6 then 0
    else if e == 3 || e == 5 then -11585 else -16384
  }

  lemma RootIsNearest()
    ensures 2 * (2 * 11585 - 1) * (2 * 11585 - 1) < 4 * 16384 * 16384 < 2 * (2 * 11585 + 1) * (2 * 11585 + 1)
  {
  }

  /** The symbols are the real and imaginary parts of the matrix of the transform: entry k, l turns back
      by k l eighths. A quarter turn makes a cosine of the sine.
   */
  lemma SymbolsAreRoots(k: nat, l: nat)
    requires k < 8 && l < 8
    ensures Factor(RealSymbols(k)[l]) == Cosine(k * l)
    ensures Factor(ImagSymbols(k)[l]) == Cosine(k * l + 2)
  {
    if k == 0 { assert k * l == 0; } else if k == 1 { assert k * l == l; } else if k == 2 { assert k * l == l + l; }
    else if k == 3 { assert k * l == 3 * l; } else if k == 4 { assert k * l == 4 * l; } else if k == 5 { assert k * l == 5 * l; }
    else if k == 6 { assert k * l == 6 * l; } else { assert k * l == 7 * l; }
  }

  function MulTwiddle(x: int, s: int): int {
    if s == NEG then (0 - x) * 16384
    else if s == NEGROOT then (0 - x) * 11585
    else if s == ZERO then 0
    else if s == ROOT then x * 11585
    else if s == ONE then x * 16384
    else 0
  }

  function Factors(s: seq<int>): (f: lanes)
    requires |s| == 8
    ensures |f| == 8
  {
    [Factor(s[0]), Factor(s[1]), Factor(s[2]), Factor(s[3]), Factor(s[4]), Factor(s[5]), Factor(s[6]), Factor(s[7])]
  }

  /** The exact sums of the reference, with 17 fraction bits. */
  function ReferenceReal(k: nat, x: lanes): int
    requires |x| == 16
  {
    Dot(Factors(RealSymbols(k)), Reals(x), 8) - Dot(Factors(ImagSymbols(k)), Imags(x), 8)
  }

  function ReferenceImag(k: nat, x: lanes): int
    requires |x| == 16
  {
    Dot(Factors(RealSymbols(k)), Imags(x), 8) + Dot(Factors(ImagSymbols(k)), Reals(x), 8)
  }

  function Saturated(v: int, low: int, high: int): int { if v > high then high else if v < low then low else v }

  /** Round to nearest with ties away from zero, drop 17 bits, saturate. */
  function RoundShift(v: int): int { Saturated((v + if v >= 0 then 65536 else 65535) / 131072, -128, 127) }

  function Partial(s: seq<int>, x: lanes, n: nat): int
    requires |s| == |x| == 8 && n <= 8
  {
    if n == 0 then 0 else Partial(s, x, n - 1) + MulTwiddle(x[n - 1], s[n - 1])
  }

  lemma {:induction false} PartialIsDot(s: seq<int>, x: lanes, n: nat)
    requires |s| == |x| == 8 && n <= 8
    ensures Partial(s, x, n) == Dot(Factors(s), x, n)
  {
    if n > 0 {
      PartialIsDot(s, x, n - 1);
      TwiddleIsFactor(x[n - 1], s[n - 1]);
    }
  }

  /** Sums of signed bytes stay far from the limits of 32 bits. */
  lemma {:induction false} PartialFits(s: seq<int>, x: lanes, n: nat)
    requires |s| == |x| == 8 && n <= 8 && forall l :: 0 <= l < 8 ==> -128 <= x[l] < 128
    ensures -0x20_0000 * n <= Partial(s, x, n) <= 0x20_0000 * n
  {
    if n > 0 {
      PartialFits(s, x, n - 1);
      assert -0x20_0000 <= MulTwiddle(x[n - 1], s[n - 1]) <= 0x20_0000;
    }
  }

  lemma TwiddleIsFactor(x: int, s: int)
    ensures MulTwiddle(x, s) == Factor(s) * x
  {
  }

  /** A sum in 32 bits, to which the rounding constant can still be added. */
  predicate Int32(v: int) { -0x8000_0000 <= v - 0x1_0000 && v + 0x1_0000 < 0x8000_0000 }

  /** Two such sums can be added or subtracted in 32 bits. */
  predicate Quarter32(v: int) { -0x2000_0000 <= v <= 0x2000_0000 }

  lemma SumsStaySmall(k: nat, x: lanes, l: nat)
    requires IsBlock(x) && l <= 8
    ensures Quarter32(Partial(RealSymbols(k), Reals(x), l)) && Quarter32(Partial(ImagSymbols(k), Imags(x), l))
    ensures Quarter32(Partial(RealSymbols(k), Imags(x), l)) && Quarter32(Partial(ImagSymbols(k), Reals(x), l))
  {
    hide RealSymbols, ImagSymbols, Partial;
    PartialFits(RealSymbols(k), Reals(x), l);
    PartialFits(ImagSymbols(k), Imags(x), l);
    PartialFits(RealSymbols(k), Imags(x), l);
    PartialFits(ImagSymbols(k), Reals(x), l);
  }

  /** The four sums of row k, symbol by symbol; no partial sum leaves 32 bits. */
  method RowSums(k: nat, x: lanes) returns (frxr: int, fixi: int, frxi: int, fixr: int)
    requires IsBlock(x)
    ensures frxr - fixi == ReferenceReal(k, x) && frxi + fixr == ReferenceImag(k, x)
    ensures Quarter32(frxr) && Quarter32(fixi) && Quarter32(frxi) && Quarter32(fixr)
  {
    hide Dot, Factors, MulTwiddle, Quarter32, Partial;
    var realRow, imagRow := PackRow(RealSymbols(k)), PackRow(ImagSymbols(k));
    NoSums(k, x);
    frxr, fixi, frxi, fixr := 0, 0, 0, 0;
    for l := 0 to 8
      invariant frxr == Partial(RealSymbols(k), Reals(x), l) && fixi == Partial(ImagSymbols(k), Imags(x), l)
      invariant frxi == Partial(RealSymbols(k), Imags(x), l) && fixr == Partial(ImagSymbols(k), Reals(x), l)
      invariant Quarter32(frxr) && Quarter32(fixi) && Quarter32(frxi) && Quarter32(fixr)
    {
      PackedSymbols(RealSymbols(k), l);
      PackedSymbols(ImagSymbols(k), l);
      hide RealSymbols, ImagSymbols, PackRow, GetSymbol, Reals, Imags, IsBlock;
      NextSum(RealSymbols(k), Reals(x), l);
      NextSum(ImagSymbols(k), Imags(x), l);
      NextSum(RealSymbols(k), Imags(x), l);
      NextSum(ImagSymbols(k), Reals(x), l);
      frxr := frxr + MulTwiddle(x[2 * l], GetSymbol(realRow, l));
      fixi := fixi + MulTwiddle(x[2 * l + 1], GetSymbol(imagRow, l));
      frxi := frxi + MulTwiddle(x[2 * l + 1], GetSymbol(realRow, l));
      fixr := fixr + MulTwiddle(x[2 * l], GetSymbol(imagRow, l));
      SumsStaySmall(k, x, l + 1);
    }
    hide RealSymbols, ImagSymbols, PackRow, GetSymbol, Reals, Imags;
    PartialIsDot(RealSymbols(k), Reals(x), 8);
    PartialIsDot(ImagSymbols(k), Imags(x), 8);
    PartialIsDot(RealSymbols(k), Imags(x), 8);
    PartialIsDot(ImagSymbols(k), Reals(x), 8);
  }

  lemma NextSum(s: seq<int>, x: lanes, l: nat)
    requires |s| == |x| == 8 && l < 8
    ensures Partial(s, x, l + 1) == Partial(s, x, l) + MulTwiddle(x[l], s[l])
  {
  }

  lemma NoSums(k: nat, x: lanes)
    requires |x| == 16
    ensures Partial(RealSymbols(k), Reals(x), 0) == Partial(ImagSymbols(k), Imags(x), 0) == 0
    ensures Partial(RealSymbols(k), Imags(x), 0) == Partial(ImagSymbols(k), Reals(x), 0) == 0 && Quarter32(0)
  {
    hide RealSymbols, ImagSymbols, Reals, Imags;
  }

  /** The rows of the transform; all that is computed fits into 32 bits. */
  method ScalarDft(x: lanes) returns (out: lanes)
    requires IsBlock(x)
    ensures |out| == 16
    ensures forall k: nat :: k < 8 ==> out[2 * k] == RoundShift(ReferenceReal(k, x)) && out[2 * k + 1] == RoundShift(ReferenceImag(k, x))
    ensures forall k: nat :: k < 8 ==> Int32(ReferenceReal(k, x)) && Int32(ReferenceImag(k, x))
  {
    hide RoundShift, ReferenceReal, ReferenceImag;
    out := [];
    for k := 0 to 8
      invariant |out| == 2 * k
      invariant forall i: nat :: i < k ==>
                  out[2 * i] == RoundShift(ReferenceReal(i, x)) && out[2 * i + 1] == RoundShift(ReferenceImag(i, x))
      invariant forall i: nat :: i < k ==> Int32(ReferenceReal(i, x)) && Int32(ReferenceImag(i, x))
    {
      var frxr, fixi, frxi, fixr := RowSums(k, x);
      out := out + [RoundShift(frxr - fixi), RoundShift(frxi + fixr)];
    }
  }

  // ----- vector instructions

  /** The sum of four products of lanes 4 j to 4 j + 3. */
  function Lane(f: lanes, x: lanes, j: nat): int
    requires |f| == |x| == 16 && j < 4
  {
    f[4 * j] * x[4 * j] + f[4 * j + 1] * x[4 * j + 1] + f[4 * j + 2] * x[4 * j + 2] + f[4 * j + 3] * x[4 * j + 3]
  }

  function VDot(f: lanes, x: lanes): (r: lanes)
    requires |f| == |x| == 16
    ensures |r| == 4
  {
    [Lane(f, x, 0), Lane(f, x, 1), Lane(f, x, 2), Lane(f, x, 3)]
  }

  /** Sums of adjacent lanes. */
  function PairwiseAdd(x: lanes, y: lanes): (r: lanes)
    requires |x| == |y| == 4
    ensures |r| == 4
  {
    [x[0] + x[1], x[2] + x[3], y[0] + y[1], y[2] + y[3]]
  }

  function Plus(x: lanes, y: lanes): (r: lanes)
    requires |x| == |y|
    ensures |r| == |x| && forall i :: 0 <= i < |x| ==> r[i] == x[i] + y[i]
  {
    seq(|x|, i requires 0 <= i < |x| => x[i] + y[i])
  }

  function Minus(x: lanes, y: lanes): (r: lanes)
    requires |x| == |y|
    ensures |r| == |x| && forall i :: 0 <= i < |x| ==> r[i] == x[i] - y[i]
  {
    seq(|x|, i requires 0 <= i < |x| => x[i] - y[i])
  }

  /** Round half up, drop 10 bits, saturate to 16 bits, then to 8. */
  function Narrow(v: int): int { Saturated(Saturated((v + 512) / 1024, -32768, 32767), -128, 127) }

  predicate Int16(v: int) { -0x8000 <= v < 0x8000 }

  /** The products of signed bytes fit into 16 bits, and sums of four of them are far from 32. */
  lemma LaneFits(f: lanes, x: lanes, j: nat)
    requires |f| == |x| == 16 && j < 4 && Bytes(f) && (forall l :: 0 <= l < 16 ==> f[l] < 128) && IsBlock(x)
    ensures forall l :: 4 * j <= l < 4 * j + 4 ==> Int16(f[l] * x[l])
    ensures -0x1_0000 <= Lane(f, x, j) <= 0x1_0000
  {
    forall l | 4 * j <= l < 4 * j + 4 ensures -16384 <= f[l] * x[l] <= 16384 {
      ProductBound(f[l], x[l]);
    }
  }

  ghost predicate LanesWithin(v: lanes, bound: int) { forall l :: 0 <= l < |v| ==> -bound <= v[l] <= bound }

  lemma DotsWithin(f: lanes, x: lanes)
    requires |f| == |x| == 16 && Bytes(f) && (forall l :: 0 <= l < 16 ==> f[l] < 128) && IsBlock(x)
    ensures LanesWithin(VDot(f, x), 0x1_0000)
  {
    LaneFits(f, x, 0);
    LaneFits(f, x, 1);
    LaneFits(f, x, 2);
    LaneFits(f, x, 3);
    hide Lane;
  }

  /** Each addition of lanes at most doubles them, so no sum of a kernel leaves 32 bits. */
  lemma SumsWithin(v: lanes, w: lanes, bound: nat)
    requires |v| == |w| == 4 && LanesWithin(v, bound) && LanesWithin(w, bound)
    ensures LanesWithin(PairwiseAdd(v, w), 2 * bound) && LanesWithin(Plus(v, w), 2 * bound) && LanesWithin(Minus(v, w), 2 * bound)
    ensures LanesWithin(Hadamard(v), 4 * bound)
  {
  }

  /** The widening sums and differences of bytes fit into 16 bits. */
  lemma PairsWithin(x: lanes)
    requires IsBlock(x)
    ensures LanesWithin(PairLong(x), 256) && LanesWithin(Minus(Evens(x), Odds(x)), 256)
    ensures LanesWithin(PairLong(PairLong(x)), 512) && LanesWithin(PairLong(Minus(Evens(x), Odds(x))), 512)
  {
  }

  /** Their sums shifted left by 7 fit into 32. */
  lemma ShiftedWithin(x: lanes)
    requires IsBlock(x)
    ensures LanesWithin(SumOutput(x), 0x2_0000) && LanesWithin(AlternatingOutput(x), 0x2_0000) && LanesWithin(ZeroAndFour(x), 0x2_0000)
  {
  }

  // ----- sums of lanes with signs are dot products again

  /** The four blocks of f multiplied by signs. */
  function WithSigns(f: lanes, s0: int, s1: int, s2: int, s3: int): (r: lanes)
    requires |f| == 16
    ensures |r| == 16
  {
    [s0 * f[0], s0 * f[1], s0 * f[2], s0 * f[3], s1 * f[4], s1 * f[5], s1 * f[6], s1 * f[7],
     s2 * f[8], s2 * f[9], s2 * f[10], s2 * f[11], s3 * f[12], s3 * f[13], s3 * f[14], s3 * f[15]]
  }

  predicate Sign(s: int) { s == 1 || s == -1 || s == 0 }

  lemma LaneWithSigns(f: lanes, x: lanes, s0: int, s1: int, s2: int, s3: int)
    requires |f| == |x| == 16 && Sign(s0) && Sign(s1) && Sign(s2) && Sign(s3)
    ensures Dot(WithSigns(f, s0, s1, s2, s3), x, 16) == s0 * Lane(f, x, 0) + s1 * Lane(f, x, 1) + s2 * Lane(f, x, 2) + s3 * Lane(f, x, 3)
  {
    var g := WithSigns(f, s0, s1, s2, s3);
    DotOfLanes(g, x);
    LaneSign(f, g, x, 0, s0);
    LaneSign(f, g, x, 1, s1);
    LaneSign(f, g, x, 2, s2);
    LaneSign(f, g, x, 3, s3);
  }

  lemma LaneSign(f: lanes, g: lanes, x: lanes, j: nat, s: int)
    requires |f| == |g| == |x| == 16 && j < 4 && Sign(s)
    requires forall t :: 4 * j <= t < 4 * j + 4 ==> g[t] == s * f[t]
    ensures Lane(g, x, j) == s * Lane(f, x, j)
  {
    forall t | 4 * j <= t < 4 * j + 4 ensures g[t] * x[t] == s * (f[t] * x[t]) {
      assert g[t] == s * f[t];
    }
  }

  lemma DotStep(f: lanes, x: lanes, j: nat)
    requires |f| == |x| == 16 && j < 4
    ensures Dot(f, x, 4 * j + 4) == Dot(f, x, 4 * j) + Lane(f, x, j)
  {
    var n := 4 * j;
    assert Dot(f, x, n + 2) == Dot(f, x, n) + f[n] * x[n] + f[n + 1] * x[n + 1];
    assert Dot(f, x, n + 4) == Dot(f, x, n + 2) + f[n + 2] * x[n + 2] + f[n + 3] * x[n + 3];
  }

  lemma DotOfLanes(f: lanes, x: lanes)
    requires |f| == |x| == 16
    ensures Dot(f, x, 16) == Lane(f, x, 0) + Lane(f, x, 1) + Lane(f, x, 2) + Lane(f, x, 3)
  {
    DotStep(f, x, 0);
    DotStep(f, x, 1);
    DotStep(f, x, 2);
    DotStep(f, x, 3);
    assert Dot(f, x, 0) == 0;
    hide Dot, Lane;
  }

  // ----- the error of a row of constants

  function Abs(v: int): nat { if v < 0 then 0 - v else v }

  /** How far the constants f, read in Q0.7, are from the constants c in Q0.14. */
  function Distance(f: lanes, c: lanes, n: nat): nat
    requires n <= |f| && n <= |c|
  {
    if n == 0 then 0 else Distance(f, c, n - 1) + Abs(128 * f[n - 1] - c[n - 1])
  }

  lemma ProductBound(e: int, x: int)
    requires -128 <= x < 128
    ensures -128 * Abs(e) <= e * x <= 128 * Abs(e)
  {
    var a := Abs(e);
    NonNegative(a, x + 128);
    NonNegative(a, 128 - x);
    assert a * (x + 128) == a * x + 128 * a && a * (128 - x) == 128 * a - a * x;
    assert e * x == a * x || e * x == 0 - a * x by {
      if e < 0 { assert e == 0 - a; }
    }
  }

  lemma NonNegative(a: nat, b: nat)
    ensures a * b >= 0
  {
  }

  /** Signed-byte inputs turn the distance of the constants into one of the sums. */
  lemma {:induction false} SumsClose(f: lanes, c: lanes, x: lanes, n: nat)
    requires n <= |f| && n <= |c| && n <= |x| && forall l :: 0 <= l < |x| ==> -128 <= x[l] < 128
    ensures -128 * Distance(f, c, n) <= 128 * Dot(f, x, n) - Dot(c, x, n) <= 128 * Distance(f, c, n)
  {
    if n > 0 {
      SumsClose(f, c, x, n - 1);
      var e := 128 * f[n - 1] - c[n - 1];
      ProductBound(e, x[n - 1]);
      assert e * x[n - 1] == 128 * (f[n - 1] * x[n - 1]) - c[n - 1] * x[n - 1];
    }
  }

  /** Accumulators that differ by less than one unit of the output, or the one block whose sum is
      least, give outputs that differ by at most one, and nothing saturates at 16 bits.
   */
  lemma RoundedClose(v: int, r: int)
    requires (-131072 < 128 * v - r < 131072) || (r == -16777216 && v == -130048)
    requires -0x4_0000 <= v <= 0x4_0000
    ensures -1 <= Narrow(v) - RoundShift(r) <= 1
    ensures -32768 <= (v + 512) / 1024 <= 32767
  {
    var p := (r + if r >= 0 then 65536 else 65535) / 131072;
    var q := (v + 512) / 1024;
    if r == -16777216 {
    } else {
      assert 131072 * p <= r + 65536 && 131072 * p >= r - 65536;
      assert 1024 * q <= v + 512 && 1024 * q >= v - 511;
    }
  }

  // ----- the reference as one dot product

  function Split(x: lanes): (r: lanes)
    requires |x| == 16
    ensures |r| == 16
  {
    Reals(x) + Imags(x)
  }

  function Negated(f: lanes): (r: lanes)
    ensures |r| == |f| && forall l :: 0 <= l < |f| ==> r[l] == 0 - f[l]
  {
    seq(|f|, l requires 0 <= l < |f| => 0 - f[l])
  }

  /** The exact constants of output o: eight for the real inputs, eight for the imaginary ones. */
  function Exact(o: nat): (c: lanes)
    ensures |c| == 16
  {
    if o % 2 == 0 then Factors(RealSymbols(o / 2)) + Negated(Factors(ImagSymbols(o / 2)))
    else Factors(ImagSymbols(o / 2)) + Factors(RealSymbols(o / 2))
  }

  function Reference(o: nat, x: lanes): int
    requires |x| == 16
  {
    if o % 2 == 0 then ReferenceReal(o / 2, x) else ReferenceImag(o / 2, x)
  }

  lemma {:induction false} DotConcat(f: lanes, g: lanes, a: lanes, b: lanes, n: nat)
    requires |f| == |a| && n <= |g| && n <= |b|
    ensures Dot(f + g, a + b, |f| + n) == Dot(f, a, |f|) + Dot(g, b, n)
  {
    if n == 0 {
      DotPrefix(f, g, a, b, |f|);
    } else {
      DotConcat(f, g, a, b, n - 1);
    }
  }

  lemma {:induction false} DotPrefix(f: lanes, g: lanes, a: lanes, b: lanes, n: nat)
    requires n <= |f| && n <= |a|
    ensures Dot(f + g, a + b, n) == Dot(f, a, n)
  {
    if n > 0 { DotPrefix(f, g, a, b, n - 1); }
  }

  lemma {:induction false} DotNegated(f: lanes, x: lanes, n: nat)
    requires n <= |f| && n <= |x|
    ensures Dot(Negated(f), x, n) == 0 - Dot(f, x, n)
  {
    if n > 0 {
      DotNegated(f, x, n - 1);
      assert (0 - f[n - 1]) * x[n - 1] == 0 - f[n - 1] * x[n - 1];
    }
  }

  lemma ReferenceIsDot(o: nat, x: lanes)
    requires |x| == 16
    ensures Reference(o, x) == Dot(Exact(o), Split(x), 16)
  {
    hide Dot, Factors, RealSymbols, ImagSymbols, Reals, Imags, Negated;
    var k := o / 2;
    var f, g := Factors(RealSymbols(k)), Factors(ImagSymbols(k));
    if o % 2 == 0 {
      DotConcat(f, Negated(g), Reals(x), Imags(x), 8);
      DotNegated(g, Imags(x), 8);
    } else {
      DotConcat(g, f, Reals(x), Imags(x), 8);
    }
  }

  // ----- rows of constants close to the exact ones

  function Quarter(f: lanes, c: lanes, n: nat): int
    requires |f| == |c| == 16 && n <= 12
  {
    Abs(128 * f[n] - c[n]) + Abs(128 * f[n + 1] - c[n + 1]) + Abs(128 * f[n + 2] - c[n + 2]) + Abs(128 * f[n + 3] - c[n + 3])
  }

  function Distance16(f: lanes, c: lanes): int
    requires |f| == |c| == 16
  {
    Quarter(f, c, 0) + Quarter(f, c, 4) + Quarter(f, c, 8) + Quarter(f, c, 12)
  }

  lemma DistanceSteps(f: lanes, c: lanes, n: nat)
    requires |f| == |c| == 16 && n <= 12
    ensures Distance(f, c, n + 4) == Distance(f, c, n) + Quarter(f, c, n)
  {
    hide Abs;
    assert Distance(f, c, n + 2) == Distance(f, c, n) + Abs(128 * f[n] - c[n]) + Abs(128 * f[n + 1] - c[n + 1]);
  }

  lemma DistanceUnrolled(f: lanes, c: lanes)
    requires |f| == |c| == 16
    ensures Distance(f, c, 16) == Distance16(f, c)
  {
    assert Distance(f, c, 0) == 0;
    hide Abs, Distance, Quarter;
    DistanceSteps(f, c, 0);
    DistanceSteps(f, c, 4);
    DistanceSteps(f, c, 8);
    DistanceSteps(f, c, 12);
  }

  ghost predicate Bytes(f: lanes) { forall l :: 0 <= l < |f| ==> -128 <= f[l] <= 128 }

  lemma {:induction false} DotBound(f: lanes, x: lanes, n: nat)
    requires n <= |f| && n <= |x| && Bytes(f) && forall l :: 0 <= l < |x| ==> -128 <= x[l] < 128
    ensures -16384 * n <= Dot(f, x, n) <= 16384 * n
  {
    if n > 0 {
      DotBound(f, x, n - 1);
      ProductBound(f[n - 1], x[n - 1]);
    }
  }

  /** What an accumulator may be for the output to be within one of the reference. */
  ghost predicate Close(v: int, r: int) {
    && ((-131072 < 128 * v - r < 131072) || (r == -16777216 && v == -130048))
    && -0x4_0000 <= v <= 0x4_0000
  }

  lemma RowClose(f: lanes, c: lanes, x: lanes)
    requires |f| == |c| == |x| == 16 && Bytes(f) && IsBlock(x) && Distance16(f, c) <= 1000
    ensures Close(Dot(f, x, 16), Dot(c, x, 16))
  {
    DistanceUnrolled(f, c);
    hide Distance16, Distance, Dot;
    SumsClose(f, c, x, 16);
    DotBound(f, x, 16);
  }

  /** Where the constants are 127 for one, the sums are multiples of the plain sum. */
  lemma {:induction false} OnesRow(f: lanes, c: lanes, x: lanes, n: nat) returns (sum: int)
    requires n <= |f| && n <= |c| && n <= |x| && forall l :: 0 <= l < |x| ==> -128 <= x[l] < 128
    requires forall l :: 0 <= l < n ==> (f[l] == 127 && c[l] == 16384) || (f[l] == 0 && c[l] == 0)
    ensures Dot(f, x, n) == 127 * sum && Dot(c, x, n) == 16384 * sum
    ensures -128 * Ones(f, n) <= sum <= 127 * Ones(f, n)
  {
    if n == 0 {
      sum := 0;
    } else {
      sum := OnesRow(f, c, x, n - 1);
      if f[n - 1] == 127 { sum := sum + x[n - 1]; }
    }
  }

  function Ones(f: lanes, n: nat): nat
    requires n <= |f|
  {
    if n == 0 then 0 else Ones(f, n - 1) + (if f[n - 1] == 127 then 1 else 0)
  }

  // ----- the kernels with one row of constants for each output

  const A := 127
  const B := -128
  const C := 91
  const D := -91

  /** The constants of the real parts: eight for the real inputs, eight for the imaginary ones. */
  function F1(k: nat): (r: lanes)
    ensures |r| == 16
  {
    if k == 0 then [A, A, A, A, A, A, A, A, 0, 0, 0, 0, 0, 0, 0, 0]
    else if k == 1 then [A, C, 0, D, B, D, 0, C, 0, C, A, C, 0, D, B, D]
    else if k == 2 then [A, 0, B, 0, A, 0, B, 0, 0, A, 0, B, 0, A, 0, B]
    else if k == 3 then [A, D, 0, C, B, C, 0, D, 0, C, B, C, 0, D, A, D]
    else if k == 4 then [A, B, A, B, A, B, A, B, 0, 0, 0, 0, 0, 0, 0, 0]
    else if k == 5 then [A, D, 0, C, B, C, 0, D, 0, D, A, D, 0, C, B, C]
    else if k == 6 then [A, 0, B, 0, A, 0, B, 0, 0, B, 0, A, 0, B, 0, A]
    else [A, C, 0, D, B, D, 0, C, 0, D, B, D, 0, C, A, C]
  }

  /** The constants of the imaginary parts. */
  function F2(k: nat): (r: lanes)
    ensures |r| == 16
  {
    if k == 0 then [0, 0, 0, 0, 0, 0, 0, 0, A, A, A, A, A, A, A, A]
    else if k == 1 then [0, D, B, D, 0, C, A, C, A, C, 0, D, B, D, 0, C]
    else if k == 2 then [0, B, 0, A, 0, B, 0, A, A, 0, B, 0, A, 0, B, 0]
    else if k == 3 then [0, D, A, D, 0, C, B, C, A, D, 0, C, B, C, 0, D]
    else if k == 4 then [0, 0, 0, 0, 0, 0, 0, 0, A, B, A, B, A, B, A, B]
    else if k == 5 then [0, C, B, C, 0, D, A, D, A, D, 0, C, B, C, 0, D]
    else if k == 6 then [0, A, 0, B, 0, A, 0, B, A, 0, B, 0, A, 0, B, 0]
    else [0, C, A, C, 0, D, B, D, A, C, 0, D, B, D, 0, C]
  }

  function Row(o: nat): (r: lanes)
    ensures |r| == 16
  {
    if o % 2 == 0 then F1(o / 2) else F2(o / 2)
  }

  /** The four accumulators of rows k and k + 1. */
  function TwoRows(k: nat, input: lanes): (r: lanes)
    requires |input| == 16
    ensures |r| == 4
  {
    PairwiseAdd(PairwiseAdd(VDot(F1(k), input), VDot(F2(k), input)), PairwiseAdd(VDot(F1(k + 1), input), VDot(F2(k + 1), input)))
  }

  ghost predicate NearExact(f: lanes, c: lanes) { |f| == |c| == 16 && Bytes(f) && Distance16(f, c) <= 1000 }

  lemma Row2Near()
    ensures NearExact(Row(2), Exact(2))
  {
  }

  lemma Row3Near()
    ensures NearExact(Row(3), Exact(3))
  {
  }

  lemma Row4Near()
    ensures NearExact(Row(4), Exact(4))
  {
  }

  lemma Row5Near()
    ensures NearExact(Row(5), Exact(5))
  {
  }

  lemma Row6Near()
    ensures NearExact(Row(6), Exact(6))
  {
  }

  lemma Row7Near()
    ensures NearExact(Row(7), Exact(7))
  {
  }

  lemma Row8Near()
    ensures NearExact(Row(8), Exact(8))
  {
  }

  lemma Row9Near()
    ensures NearExact(Row(9), Exact(9))
  {
  }

  lemma Row10Near()
    ensures NearExact(Row(10), Exact(10))
  {
  }

  lemma Row11Near()
    ensures NearExact(Row(11), Exact(11))
  {
  }

  lemma Row12Near()
    ensures NearExact(Row(12), Exact(12))
  {
  }

  lemma Row13Near()
    ensures NearExact(Row(13), Exact(13))
  {
  }

  lemma Row14Near()
    ensures NearExact(Row(14), Exact(14))
  {
  }

  lemma Row15Near()
    ensures NearExact(Row(15), Exact(15))
  {
  }

  /** Every row but the first two is close to the exact constants. */
  lemma RowsNear(o: nat)
    requires 2 <= o < 16
    ensures NearExact(Row(o), Exact(o))
  {
    hide NearExact, Row, Exact;
    Row2Near();
    Row3Near();
    Row4Near();
    Row5Near();
    Row6Near();
    Row7Near();
    Row8Near();
    Row9Near();
    Row10Near();
    Row11Near();
    Row12Near();
    Row13Near();
    Row14Near();
    Row15Near();
  }

  /** The accumulators of the kernels that have a row of constants for each output. */
  function RowsAccumulators(x: lanes): (r: lanes)
    requires |x| == 16
    ensures |r| == 16
  {
    TwoRows(0, Split(x)) + TwoRows(2, Split(x)) + TwoRows(4, Split(x)) + TwoRows(6, Split(x))
  }

  lemma TwoRowsAreDots(k: nat, y: lanes)
    requires |y| == 16
    ensures var t := TwoRows(k, y);
      && t[0] == Dot(Row(2 * k), y, 16) && t[1] == Dot(Row(2 * k + 1), y, 16)
      && t[2] == Dot(Row(2 * k + 2), y, 16) && t[3] == Dot(Row(2 * k + 3), y, 16)
  {
    hide F1, F2, Lane, Dot;
    DotOfLanes(F1(k), y);
    DotOfLanes(F2(k), y);
    DotOfLanes(F1(k + 1), y);
    DotOfLanes(F2(k + 1), y);
  }

  lemma RowsAreDots(o: nat, x: lanes)
    requires |x| == 16 && o < 16
    ensures RowsAccumulators(x)[o] == Dot(Row(o), Split(x), 16)
  {
    hide Row, TwoRows, Dot, Split;
    TwoRowsAreDots(0, Split(x));
    TwoRowsAreDots(2, Split(x));
    TwoRowsAreDots(4, Split(x));
    TwoRowsAreDots(6, Split(x));
  }

  lemma FirstRowClose(o: nat, x: lanes)
    requires o < 2 && IsBlock(x)
    ensures Close(Dot(Row(o), x, 16), Dot(Exact(o), x, 16))
  {
    var f, c := Row(o), Exact(o);
    forall l | 0 <= l < 16 ensures (f[l] == 127 && c[l] == 16384) || (f[l] == 0 && c[l] == 0) {}
    EightOnes(o);
    hide F1, F2, Row, Exact;
    var sum := OnesRow(f, c, x, 16);
  }

  lemma EightOnes(o: nat)
    requires o < 2
    ensures Ones(Row(o), 16) == 8
  {
    var f := Row(o);
    assert f[0] == f[1] == f[2] == f[3] == f[4] == f[5] == f[6] == f[7] == if o == 0 then 127 else 0;
    assert f[8] == f[9] == f[10] == f[11] == f[12] == f[13] == f[14] == f[15] == if o == 0 then 0 else 127;
    hide Row, Ones;
    OnesSteps(f, 0);
    OnesSteps(f, 4);
    OnesSteps(f, 8);
    OnesSteps(f, 12);
  }

  lemma OnesSteps(f: lanes, n: nat)
    requires |f| == 16 && n <= 12
    ensures Ones(f, n + 4) == Ones(f, n) + (if f[n] == 127 then 1 else 0) + (if f[n + 1] == 127 then 1 else 0)
                              + (if f[n + 2] == 127 then 1 else 0) + (if f[n + 3] == 127 then 1 else 0)
    ensures Ones(f, 0) == 0
  {
    assert Ones(f, n + 2) == Ones(f, n) + (if f[n] == 127 then 1 else 0) + (if f[n + 1] == 127 then 1 else 0);
  }

  // ----- the kernel that shares rows between conjugate outputs

  /** Adjacent lanes added, widening. */
  function PairLong(x: lanes): (r: lanes)
    requires |x| % 2 == 0
    ensures |r| == |x| / 2 && forall i :: 0 <= i < |x| / 2 ==> r[i] == x[2 * i] + x[2 * i + 1]
  {
    seq(|x| / 2, i requires 0 <= i < |x| / 2 => x[2 * i] + x[2 * i + 1])
  }

  /** The lanes at even and at odd places. */
  function Evens(x: lanes): (r: lanes)
    requires |x| == 16
    ensures |r| == 8 && forall i :: 0 <= i < 8 ==> r[i] == x[2 * i]
  {
    seq(8, i requires 0 <= i < 8 => x[2 * i])
  }

  function Odds(x: lanes): (r: lanes)
    requires |x| == 16
    ensures |r| == 8 && forall i :: 0 <= i < 8 ==> r[i] == x[2 * i + 1]
  {
    seq(8, i requires 0 <= i < 8 => x[2 * i + 1])
  }

  /** Output 0 from the plain sums, shifted left by 7. */
  function SumOutput(y: lanes): (r: lanes)
    requires |y| == 16
    ensures |r| == 2
  {
    var s := PairLong(PairLong(y));
    [128 * (s[0] + s[1]), 128 * (s[2] + s[3])]
  }

  /** Output 4 from the differences of even and odd lanes. */
  function AlternatingOutput(y: lanes): (r: lanes)
    requires |y| == 16
    ensures |r| == 2
  {
    var s := PairLong(Minus(Evens(y), Odds(y)));
    [128 * (s[0] + s[1]), 128 * (s[2] + s[3])]
  }

  /** Outputs k and 8 - k from the rows of constants of output k. */
  function ConjugatePair(k: nat, y: lanes): (r: lanes)
    requires |y| == 16
    ensures |r| == 4
  {
    var v := PairwiseAdd(VDot(F1(k), y), VDot(F2(k), y));
    PairwiseAdd(v, [v[0], 0 - v[1], 0 - v[2], v[3]])
  }

  /** The accumulators in the order of the outputs. */
  function SymAccumulators(x: lanes): (r: lanes)
    requires |x| == 16
    ensures |r| == 16
  {
    var y := Split(x);
    var x17, x26, x35 := ConjugatePair(1, y), ConjugatePair(2, y), ConjugatePair(3, y);
    SumOutput(y) + x17[..2] + x26[..2] + x35[..2] + AlternatingOutput(y) + x35[2..] + x26[2..] + x17[2..]
  }

  const ONES: lanes := [128, 128, 128, 128, 128, 128, 128, 128, 128, 128, 128, 128, 128, 128, 128, 128]
  const ALTERNATING: lanes := [128, -128, 128, -128, 128, -128, 128, -128, 128, -128, 128, -128, 128, -128, 128, -128]

  /** The constants that the accumulators of output o amount to. */
  function SymRow(o: nat): (r: lanes)
    ensures |r| == 16
  {
    if o == 0 then WithSigns(ONES, 1, 1, 0, 0)
    else if o == 1 then WithSigns(ONES, 0, 0, 1, 1)
    else if o == 8 then WithSigns(ALTERNATING, 1, 1, 0, 0)
    else if o == 9 then WithSigns(ALTERNATING, 0, 0, 1, 1)
    else if o < 8 then Row(o)
    else if o % 2 == 0 && o < 16 then WithSigns(F1(8 - o / 2), 1, 1, -1, -1)
    else if o < 16 then WithSigns(F2(8 - o / 2), -1, -1, 1, 1)
    else ONES
  }

  lemma LanesOfOnes(z: lanes)
    requires |z| == 16
    ensures |ONES| == 16 && |PairLong(PairLong(z))| == 4
    ensures var s := PairLong(PairLong(z));
      Lane(ONES, z, 0) == 128 * s[0] && Lane(ONES, z, 1) == 128 * s[1] && Lane(ONES, z, 2) == 128 * s[2] && Lane(ONES, z, 3) == 128 * s[3]
  {
  }

  lemma LanesOfAlternating(z: lanes)
    requires |z| == 16
    ensures |ALTERNATING| == 16 && |PairLong(Minus(Evens(z), Odds(z)))| == 4
    ensures var s := PairLong(Minus(Evens(z), Odds(z))); var a := ALTERNATING;
      Lane(a, z, 0) == 128 * s[0] && Lane(a, z, 1) == 128 * s[1] && Lane(a, z, 2) == 128 * s[2] && Lane(a, z, 3) == 128 * s[3]
  {
  }

  lemma OwnRows()
    ensures SymRow(0) == WithSigns(ONES, 1, 1, 0, 0) && SymRow(1) == WithSigns(ONES, 0, 0, 1, 1)
    ensures SymRow(8) == WithSigns(ALTERNATING, 1, 1, 0, 0) && SymRow(9) == WithSigns(ALTERNATING, 0, 0, 1, 1)
  {
    hide WithSigns, F1, F2, ONES, ALTERNATING;
  }

  lemma SumIsDot(y: lanes)
    requires |y| == 16
    ensures SumOutput(y)[0] == Dot(SymRow(0), y, 16) && SumOutput(y)[1] == Dot(SymRow(1), y, 16)
  {
    hide Dot, WithSigns, F1, F2, SymRow, Lane, ONES, PairLong;
    LanesOfOnes(y);
    OwnRows();
    LaneWithSigns(ONES, y, 1, 1, 0, 0);
    LaneWithSigns(ONES, y, 0, 0, 1, 1);
  }

  lemma AlternatingIsDot(y: lanes)
    requires |y| == 16
    ensures AlternatingOutput(y)[0] == Dot(SymRow(8), y, 16) && AlternatingOutput(y)[1] == Dot(SymRow(9), y, 16)
  {
    hide Dot, WithSigns, F1, F2, SymRow, Lane, ALTERNATING, PairLong, Evens, Odds, Minus;
    LanesOfAlternating(y);
    OwnRows();
    LaneWithSigns(ALTERNATING, y, 1, 1, 0, 0);
    LaneWithSigns(ALTERNATING, y, 0, 0, 1, 1);
  }

  lemma PairSums(k: nat, y: lanes)
    requires |y| == 16
    ensures var p := ConjugatePair(k, y);
      && p[0] == Dot(F1(k), y, 16) && p[1] == Dot(F2(k), y, 16)
      && p[2] == Dot(WithSigns(F1(k), 1, 1, -1, -1), y, 16) && p[3] == Dot(WithSigns(F2(k), -1, -1, 1, 1), y, 16)
  {
    hide Dot, WithSigns, F1, F2, Lane;
    DotOfLanes(F1(k), y);
    DotOfLanes(F2(k), y);
    LaneWithSigns(F1(k), y, 1, 1, -1, -1);
    LaneWithSigns(F2(k), y, -1, -1, 1, 1);
  }

  /** Which constants the outputs k and 8 - k share. */
  lemma SharedRows(k: nat)
    requires 1 <= k <= 3
    ensures SymRow(2 * k) == F1(k) && SymRow(2 * k + 1) == F2(k)
    ensures SymRow(16 - 2 * k) == WithSigns(F1(k), 1, 1, -1, -1) && SymRow(17 - 2 * k) == WithSigns(F2(k), -1, -1, 1, 1)
  {
    hide F1, F2, WithSigns, ONES, ALTERNATING;
    assert 8 - (16 - 2 * k) / 2 == k == 8 - (17 - 2 * k) / 2;
  }

  lemma PairIsDot(k: nat, y: lanes)
    requires |y| == 16 && 1 <= k <= 3
    ensures var p := ConjugatePair(k, y);
      && p[0] == Dot(SymRow(2 * k), y, 16) && p[1] == Dot(SymRow(2 * k + 1), y, 16)
      && p[2] == Dot(SymRow(16 - 2 * k), y, 16) && p[3] == Dot(SymRow(17 - 2 * k), y, 16)
  {
    hide Dot, WithSigns, F1, F2, Lane, SymRow, ConjugatePair;
    SharedRows(k);
    PairSums(k, y);
  }

  lemma SymIsDot(o: nat, x: lanes)
    requires |x| == 16 && o < 16
    ensures SymAccumulators(x)[o] == Dot(SymRow(o), Split(x), 16)
  {
    hide Dot, SymRow, SumOutput, AlternatingOutput, ConjugatePair, Split;
    var y := Split(x);
    SumIsDot(y);
    AlternatingIsDot(y);
    PairIsDot(1, y);
    PairIsDot(2, y);
    PairIsDot(3, y);
  }

  lemma SymRow0Near()
    ensures NearExact(SymRow(0), Exact(0))
  {
  }

  lemma SymRow1Near()
    ensures NearExact(SymRow(1), Exact(1))
  {
  }

  lemma SymRow8Near()
    ensures NearExact(SymRow(8), Exact(8))
  {
  }

  lemma SymRow9Near()
    ensures NearExact(SymRow(9), Exact(9))
  {
  }

  lemma SymRow10Near()
    ensures NearExact(SymRow(10), Exact(10))
  {
    hide SymRow, F2, Row;
    SharedRows(3);
  }

  lemma SymRow11Near()
    ensures NearExact(SymRow(11), Exact(11))
  {
    hide SymRow, F1, Row;
    SharedRows(3);
  }

  lemma SymRow12Near()
    ensures NearExact(SymRow(12), Exact(12))
  {
    hide SymRow, F2, Row;
    SharedRows(2);
  }

  lemma SymRow13Near()
    ensures NearExact(SymRow(13), Exact(13))
  {
    hide SymRow, F1, Row;
    SharedRows(2);
  }

  lemma SymRow14Near()
    ensures NearExact(SymRow(14), Exact(14))
  {
    hide SymRow, F2, Row;
    SharedRows(1);
  }

  lemma SymRow15Near()
    ensures NearExact(SymRow(15), Exact(15))
  {
    hide SymRow, F1, Row;
    SharedRows(1);
  }

  lemma SymRowIsRow(o: nat)
    requires 2 <= o < 8
    ensures SymRow(o) == Row(o)
  {
    hide Row, F1, F2, WithSigns;
  }

  lemma SymRowsNear(o: nat)
    requires o < 16
    ensures NearExact(SymRow(o), Exact(o))
  {
    hide NearExact, Row, SymRow, Exact, F1, F2;
    if 2 <= o < 8 {
      RowsNear(o);
      SymRowIsRow(o);
    } else if o < 8 {
      SymRow0Near();
      SymRow1Near();
    } else {
      SymRow8Near();
      SymRow9Near();
      SymRow10Near();
      SymRow11Near();
      SymRow12Near();
      SymRow13Near();
      SymRow14Near();
      SymRow15Near();
    }
  }

  // ----- the kernel that shares all odd outputs

  const INDICES: seq<nat> := [0, 4, 8, 12, 1, 5, 9, 13, 2, 6, 10, 14, 3, 7, 11, 15]

  /** Even real, even imaginary, odd real and odd imaginary inputs. */
  function Lookup(x: lanes): (r: lanes)
    requires |x| == 16
    ensures |r| == 16
  {
    [x[INDICES[0]], x[INDICES[1]], x[INDICES[2]], x[INDICES[3]], x[INDICES[4]], x[INDICES[5]], x[INDICES[6]], x[INDICES[7]],
     x[INDICES[8]], x[INDICES[9]], x[INDICES[10]], x[INDICES[11]], x[INDICES[12]], x[INDICES[13]], x[INDICES[14]], x[INDICES[15]]]
  }

  /** Constants for the split order, in the order of the lookup. */
  function Reordered(c: lanes): (r: lanes)
    requires |c| == 16
    ensures |r| == 16
  {
    [c[0], c[2], c[4], c[6], c[8], c[10], c[12], c[14], c[1], c[3], c[5], c[7], c[9], c[11], c[13], c[15]]
  }

  lemma LookupIsReordered(x: lanes)
    requires |x| == 16
    ensures Lookup(x) == Reordered(Split(x))
  {
  }

  /** Reordering both sides keeps the dot product. */
  lemma DotReordered(c: lanes, y: lanes)
    requires |c| == |y| == 16
    ensures Dot(Reordered(c), Reordered(y), 16) == Dot(c, y, 16)
  {
    DotOfLanes(Reordered(c), Reordered(y));
    DotOfLanes(c, y);
    hide Dot;
    var d, z := Reordered(c), Reordered(y);
    assert Lane(d, z, 0) == c[0] * y[0] + c[2] * y[2] + c[4] * y[4] + c[6] * y[6];
    assert Lane(d, z, 1) == c[8] * y[8] + c[10] * y[10] + c[12] * y[12] + c[14] * y[14];
    assert Lane(d, z, 2) == c[1] * y[1] + c[3] * y[3] + c[5] * y[5] + c[7] * y[7];
    assert Lane(d, z, 3) == c[9] * y[9] + c[11] * y[11] + c[13] * y[13] + c[15] * y[15];
    hide Reordered;
  }

  const G1: lanes := [A, 0, B, 0, 0, B, 0, A, C, D, D, C, D, D, C, C]
  /** The lanes of G1 with adjacent groups of four exchanged. */
  const G2: lanes := [0, B, 0, A, A, 0, B, 0, D, D, C, C, C, D, D, C]
  const G3: lanes := [A, B, A, B, A, B, A, B, B, A, B, A, A, B, A, B]

  /** The four-point Hadamard transform: elements 0 and 2, then 1 and 3. */
  function Hadamard(x: lanes): (r: lanes)
    requires |x| == 4
    ensures |r| == 4
  {
    var sum, diff := [x[0] + x[2], x[1] + x[3]], [x[0] - x[2], x[1] - x[3]];
    var first, second := [sum[0], diff[0]], [sum[1], diff[1]];
    Plus(first, second) + Minus(first, second)
  }

  /** Outputs 7, 3, 1 and 5 from the two Hadamard transforms. */
  function OddOutputs(z: lanes): (r: lanes)
    requires |z| == 16
    ensures |r| == 8
  {
    var re, im := Hadamard(VDot(G1, z)), Hadamard(VDot(G2, z));
    [re[0], 0 - im[2], re[1], 0 - im[3], re[2], im[0], re[3], im[1]]
  }

  /** Outputs 2 and 6. */
  function TwoAndSix(z: lanes): (r: lanes)
    requires |z| == 16
    ensures |r| == 4
  {
    var v := VDot(G3, z);
    Plus([v[0], v[1]], [v[3], v[2]]) + Minus([v[0], v[1]], [v[3], v[2]])
  }

  /** Outputs 0 and 4 from the sums of even and odd inputs. */
  function ZeroAndFour(z: lanes): (r: lanes)
    requires |z| == 16
    ensures |r| == 4
  {
    var s := PairLong(PairLong(z));
    [128 * (s[0] + s[2]), 128 * (s[1] + s[3]), 128 * (s[0] - s[2]), 128 * (s[1] - s[3])]
  }

  function Sym2Accumulators(x: lanes): (r: lanes)
    requires |x| == 16
    ensures |r| == 16
  {
    var z := Lookup(x);
    var x04, x26, odd := ZeroAndFour(z), TwoAndSix(z), OddOutputs(z);
    x04[..2] + odd[4..6] + x26[..2] + odd[2..4] + x04[2..] + odd[6..] + x26[2..] + odd[..2]
  }

  /** The constants that the accumulators of output o amount to, in the order of the lookup. */
  function Sym2Row(o: nat): (r: lanes)
    ensures |r| == 16
  {
    if o == 0 then WithSigns(ONES, 1, 0, 1, 0)
    else if o == 1 then WithSigns(ONES, 0, 1, 0, 1)
    else if o == 2 then WithSigns(G1, 1, -1, 1, -1)
    else if o == 3 then WithSigns(G2, 1, 1, 1, 1)
    else if o == 4 then WithSigns(G3, 1, 0, 0, 1)
    else if o == 5 then WithSigns(G3, 0, 1, 1, 0)
    else if o == 6 then WithSigns(G1, 1, 1, -1, -1)
    else if o == 7 then WithSigns(G2, -1, 1, 1, -1)
    else if o == 8 then WithSigns(ONES, 1, 0, -1, 0)
    else if o == 9 then WithSigns(ONES, 0, 1, 0, -1)
    else if o == 10 then WithSigns(G1, 1, -1, -1, 1)
    else if o == 11 then WithSigns(G2, 1, 1, -1, -1)
    else if o == 12 then WithSigns(G3, 1, 0, 0, -1)
    else if o == 13 then WithSigns(G3, 0, 1, -1, 0)
    else if o == 14 then WithSigns(G1, 1, 1, 1, 1)
    else WithSigns(G2, -1, 1, -1, 1)
  }

  /** Elements 0, 2, 1 and 3 of the Hadamard transform of the four sums of a row. */
  lemma HadamardIsDot(g: lanes, z: lanes)
    requires |g| == |z| == 16
    ensures var h := Hadamard(VDot(g, z));
      && h[0] == Dot(WithSigns(g, 1, 1, 1, 1), z, 16) && h[1] == Dot(WithSigns(g, 1, 1, -1, -1), z, 16)
      && h[2] == Dot(WithSigns(g, 1, -1, 1, -1), z, 16) && h[3] == Dot(WithSigns(g, 1, -1, -1, 1), z, 16)
  {
    hide Dot, WithSigns, Lane;
    LaneWithSigns(g, z, 1, 1, 1, 1);
    LaneWithSigns(g, z, 1, 1, -1, -1);
    LaneWithSigns(g, z, 1, -1, 1, -1);
    LaneWithSigns(g, z, 1, -1, -1, 1);
  }

  lemma OppositeSigns(g: lanes, z: lanes)
    requires |g| == |z| == 16
    ensures Dot(WithSigns(g, -1, 1, -1, 1), z, 16) == 0 - Dot(WithSigns(g, 1, -1, 1, -1), z, 16)
    ensures Dot(WithSigns(g, -1, 1, 1, -1), z, 16) == 0 - Dot(WithSigns(g, 1, -1, -1, 1), z, 16)
  {
    hide Dot, WithSigns, Lane;
    LaneWithSigns(g, z, 1, -1, 1, -1);
    LaneWithSigns(g, z, -1, 1, -1, 1);
    LaneWithSigns(g, z, 1, -1, -1, 1);
    LaneWithSigns(g, z, -1, 1, 1, -1);
  }

  lemma OddAreDots(z: lanes)
    requires |z| == 16
    ensures var r := OddOutputs(z);
      && r[0] == Dot(Sym2Row(14), z, 16) && r[1] == Dot(Sym2Row(15), z, 16) && r[2] == Dot(Sym2Row(6), z, 16)
      && r[3] == Dot(Sym2Row(7), z, 16) && r[4] == Dot(Sym2Row(2), z, 16) && r[5] == Dot(Sym2Row(3), z, 16)
      && r[6] == Dot(Sym2Row(10), z, 16) && r[7] == Dot(Sym2Row(11), z, 16)
  {
    assert |G1| == |G2| == 16;
    hide Dot, WithSigns, Lane, G1, G2, Hadamard, VDot;
    HadamardIsDot(G1, z);
    HadamardIsDot(G2, z);
    OppositeSigns(G2, z);
  }

  lemma EvenSym2Rows()
    ensures |G3| == 16 && |ONES| == 16
    ensures Sym2Row(0) == WithSigns(ONES, 1, 0, 1, 0) && Sym2Row(1) == WithSigns(ONES, 0, 1, 0, 1)
    ensures Sym2Row(8) == WithSigns(ONES, 1, 0, -1, 0) && Sym2Row(9) == WithSigns(ONES, 0, 1, 0, -1)
    ensures Sym2Row(4) == WithSigns(G3, 1, 0, 0, 1) && Sym2Row(5) == WithSigns(G3, 0, 1, 1, 0)
    ensures Sym2Row(12) == WithSigns(G3, 1, 0, 0, -1) && Sym2Row(13) == WithSigns(G3, 0, 1, -1, 0)
  {
    hide WithSigns;
  }

  lemma TwoAndSixAreDots(z: lanes)
    requires |z| == 16
    ensures var r := TwoAndSix(z);
      && r[0] == Dot(Sym2Row(4), z, 16) && r[1] == Dot(Sym2Row(5), z, 16)
      && r[2] == Dot(Sym2Row(12), z, 16) && r[3] == Dot(Sym2Row(13), z, 16)
  {
    hide Dot, WithSigns, Lane, ONES, G1, G2, G3, Sym2Row;
    EvenSym2Rows();
    LaneWithSigns(G3, z, 1, 0, 0, 1);
    LaneWithSigns(G3, z, 0, 1, 1, 0);
    LaneWithSigns(G3, z, 1, 0, 0, -1);
    LaneWithSigns(G3, z, 0, 1, -1, 0);
  }

  lemma ZeroAndFourAreDots(z: lanes)
    requires |z| == 16
    ensures var r := ZeroAndFour(z);
      && r[0] == Dot(Sym2Row(0), z, 16) && r[1] == Dot(Sym2Row(1), z, 16)
      && r[2] == Dot(Sym2Row(8), z, 16) && r[3] == Dot(Sym2Row(9), z, 16)
  {
    hide Dot, WithSigns, Lane, ONES, PairLong, F1, F2, G1, G2, G3, Sym2Row;
    LanesOfOnes(z);
    EvenSym2Rows();
    LaneWithSigns(ONES, z, 1, 0, 1, 0);
    LaneWithSigns(ONES, z, 0, 1, 0, 1);
    LaneWithSigns(ONES, z, 1, 0, -1, 0);
    LaneWithSigns(ONES, z, 0, 1, 0, -1);
  }

  lemma Sym2IsDot(o: nat, x: lanes)
    requires |x| == 16 && o < 16
    ensures Sym2Accumulators(x)[o] == Dot(Sym2Row(o), Lookup(x), 16)
  {
    hide Dot, Sym2Row, ZeroAndFour, TwoAndSix, OddOutputs, Lookup;
    OddAreDots(Lookup(x));
    TwoAndSixAreDots(Lookup(x));
    ZeroAndFourAreDots(Lookup(x));
  }

  lemma Sym2Row0Near()
    ensures NearExact(Sym2Row(0), Reordered(Exact(0)))
  {
  }

  lemma Sym2Row1Near()
    ensures NearExact(Sym2Row(1), Reordered(Exact(1)))
  {
  }

  lemma Sym2Row2Near()
    ensures NearExact(Sym2Row(2), Reordered(Exact(2)))
  {
  }

  lemma Sym2Row3Near()
    ensures NearExact(Sym2Row(3), Reordered(Exact(3)))
  {
  }

  lemma Sym2Row4Near()
    ensures NearExact(Sym2Row(4), Reordered(Exact(4)))
  {
  }

  lemma Sym2Row5Near()
    ensures NearExact(Sym2Row(5), Reordered(Exact(5)))
  {
  }

  lemma Sym2Row6Near()
    ensures NearExact(Sym2Row(6), Reordered(Exact(6)))
  {
  }

  lemma Sym2Row7Near()
    ensures NearExact(Sym2Row(7), Reordered(Exact(7)))
  {
  }

  lemma Sym2Row8Near()
    ensures NearExact(Sym2Row(8), Reordered(Exact(8)))
  {
  }

  lemma Sym2Row9Near()
    ensures NearExact(Sym2Row(9), Reordered(Exact(9)))
  {
  }

  lemma Sym2Row10Near()
    ensures NearExact(Sym2Row(10), Reordered(Exact(10)))
  {
  }

  lemma Sym2Row11Near()
    ensures NearExact(Sym2Row(11), Reordered(Exact(11)))
  {
  }

  lemma Sym2Row12Near()
    ensures NearExact(Sym2Row(12), Reordered(Exact(12)))
  {
  }

  lemma Sym2Row13Near()
    ensures NearExact(Sym2Row(13), Reordered(Exact(13)))
  {
  }

  lemma Sym2Row14Near()
    ensures NearExact(Sym2Row(14), Reordered(Exact(14)))
  {
  }

  lemma Sym2Row15Near()
    ensures NearExact(Sym2Row(15), Reordered(Exact(15)))
  {
  }

  lemma Sym2RowsNear(o: nat)
    requires o < 16
    ensures NearExact(Sym2Row(o), Reordered(Exact(o)))
  {
    hide NearExact, Sym2Row, Exact, Reordered;
    Sym2Row0Near();
    Sym2Row1Near();
    Sym2Row2Near();
    Sym2Row3Near();
    Sym2Row4Near();
    Sym2Row5Near();
    Sym2Row6Near();
    Sym2Row7Near();
    Sym2Row8Near();
    Sym2Row9Near();
    Sym2Row10Near();
    Sym2Row11Near();
    Sym2Row12Near();
    Sym2Row13Near();
    Sym2Row14Near();
    Sym2Row15Near();
  }

  // ----- the four kernels

  datatype Kernel = V2 | V4 | Sym | Sym2

  /** What a kernel adds up for each output. */
  function Accumulators(kernel: Kernel, x: lanes): (r: lanes)
    requires |x| == 16
    ensures |r| == 16
  {
    match kernel
    case V2 => RowsAccumulators(x)
    case V4 => RowsAccumulators(x)
    case Sym => SymAccumulators(x)
    case Sym2 => Sym2Accumulators(x)
  }

  function Output(kernel: Kernel, x: lanes): (r: lanes)
    requires |x| == 16
    ensures |r| == 16
  {
    seq(16, o requires 0 <= o < 16 => Narrow(Accumulators(kernel, x)[o]))
  }

  lemma SplitIsBlock(x: lanes)
    requires IsBlock(x)
    ensures IsBlock(Split(x)) && IsBlock(Lookup(x))
  {
  }

  lemma RowsClose(x: lanes, o: nat)
    requires IsBlock(x) && o < 16
    ensures Close(RowsAccumulators(x)[o], Reference(o, x))
  {
    SplitIsBlock(x);
    hide Split, Lookup, IsBlock, Row, Exact, Dot, Reference, Close, Distance16, Bytes, RowsAccumulators;
    ReferenceIsDot(o, x);
    RowsAreDots(o, x);
    if o < 2 {
      FirstRowClose(o, Split(x));
    } else {
      RowsNear(o);
      RowClose(Row(o), Exact(o), Split(x));
    }
  }

  lemma SymClose(x: lanes, o: nat)
    requires IsBlock(x) && o < 16
    ensures Close(SymAccumulators(x)[o], Reference(o, x))
  {
    SplitIsBlock(x);
    hide Split, Lookup, IsBlock, SymRow, Exact, Dot, Reference, Close, Distance16, Bytes, SymAccumulators;
    ReferenceIsDot(o, x);
    SymIsDot(o, x);
    SymRowsNear(o);
    RowClose(SymRow(o), Exact(o), Split(x));
  }

  lemma Sym2Close(x: lanes, o: nat)
    requires IsBlock(x) && o < 16
    ensures Close(Sym2Accumulators(x)[o], Reference(o, x))
  {
    SplitIsBlock(x);
    hide Split, Lookup, IsBlock, Sym2Row, Exact, Dot, Reference, Close, Distance16, Bytes, Sym2Accumulators, Reordered;
    ReferenceIsDot(o, x);
    Sym2IsDot(o, x);
    Sym2RowsNear(o);
    LookupIsReordered(x);
    DotReordered(Exact(o), Split(x));
    RowClose(Sym2Row(o), Reordered(Exact(o)), Lookup(x));
  }

  lemma AccumulatorClose(kernel: Kernel, x: lanes, o: nat)
    requires IsBlock(x) && o < 16
    ensures Close(Accumulators(kernel, x)[o], Reference(o, x))
  {
    hide IsBlock, Reference, Close, RowsAccumulators, SymAccumulators, Sym2Accumulators;
    RowsClose(x, o);
    SymClose(x, o);
    Sym2Close(x, o);
  }

  lemma OutputIsNarrowed(kernel: Kernel, x: lanes, o: nat)
    requires |x| == 16 && o < 16
    ensures Output(kernel, x)[o] == Narrow(Accumulators(kernel, x)[o]) && -128 <= Output(kernel, x)[o] < 128
  {
    hide Accumulators;
  }

  /** Every component of every kernel's output is within one of the scalar kernel's, for every
      block of signed bytes, and no sum is cut off at 16 bits.
   */
  lemma WithinOne(kernel: Kernel, x: lanes, o: nat)
    requires IsBlock(x) && o < 16
    ensures -1 <= Output(kernel, x)[o] - RoundShift(Reference(o, x)) <= 1
    ensures -32768 <= (Accumulators(kernel, x)[o] + 512) / 1024 <= 32767
  {
    AccumulatorClose(kernel, x, o);
    OutputIsNarrowed(kernel, x, o);
    hide RoundShift, Accumulators, Reference, Output, Narrow, IsBlock;
    RoundedClose(Accumulators(kernel, x)[o], Reference(o, x));
  }

  /** The sixteen components of block h. */
  function Block(s: lanes, h: nat): (b: lanes)
    ensures |b| == 16
  {
    seq(16, o requires 0 <= o < 16 => if 16 * h + o < |s| then s[16 * h + o] else 0)
  }

  /** s with values put at base and the following places. */
  function Stored(s: lanes, base: nat, values: lanes, n: nat): (r: lanes)
    requires base + n <= |s| && n <= |values|
    ensures |r| == |s|
  {
    s[..base] + values[..n] + s[base + n..]
  }

  lemma StoredStep(s: lanes, base: nat, values: lanes, n: nat)
    requires base + n < |s| && n < |values|
    ensures Stored(s, base, values, n)[base + n := values[n]] == Stored(s, base, values, n + 1)
  {
  }

  method Store(y: array<int>, base: nat, values: lanes)
    requires base + |values| <= y.Length
    modifies y
    ensures y[..] == Stored(old(y[..]), base, values, |values|)
  {
    ghost var s := y[..];
    assert Stored(s, base, values, 0) == s;
    hide Stored;
    for o := 0 to |values|
      invariant y[..] == Stored(s, base, values, o)
    {
      StoredStep(s, base, values, o);
      y[base + o] := values[o];
      ghost var next := Stored(s, base, values, o)[base + o := values[o]];
      assert y[..] == next;
    }
  }

  /** The first n blocks of after are the outputs for the blocks of xs; the rest is as before. */
  ghost predicate BlocksDone(kernel: Kernel, n: nat, xs: lanes, before: lanes, after: lanes) {
    && |after| == |before|
    && (forall h: nat {:trigger Block(after, h)} :: h < n ==> Block(after, h) == Output(kernel, Block(xs, h)))
    && forall a :: 16 * n <= a < |before| ==> after[a] == before[a]
  }

  lemma OneMoreBlock(kernel: Kernel, n: nat, xs: lanes, before: lanes, mid: lanes, after: lanes)
    requires BlocksDone(kernel, n, xs, before, mid) && 16 * n + 16 <= |before|
    requires after == Stored(mid, 16 * n, Output(kernel, Block(xs, n)), 16)
    ensures BlocksDone(kernel, n + 1, xs, before, after)
  {
    hide Output;
    forall h: nat | h < n + 1 ensures Block(after, h) == Output(kernel, Block(xs, h)) {
      if h < n {
        forall a | 16 * h <= a < 16 * h + 16 ensures after[a] == mid[a] {}
        SameBlock(h, after, mid);
      } else {
        assert Block(after, h) == after[16 * n..16 * n + 16];
      }
    }
  }

  lemma SameBlock(h: nat, s: lanes, t: lanes)
    requires 16 * h + 16 <= |s| && |s| == |t| && forall a :: 16 * h <= a < 16 * h + 16 ==> s[a] == t[a]
    ensures Block(s, h) == Block(t, h)
  {
  }

  /** Batches of blocks, also in place: block h of the output is the output for block h of the input. */
  method ExecuteBatch(kernel: Kernel, x: array<int>, y: array<int>, howmany: nat)
    requires 16 * howmany <= x.Length && 16 * howmany <= y.Length
    modifies y
    ensures BlocksDone(kernel, howmany, old(x[..]), old(y[..]), y[..])
  {
    ghost var xs, before := x[..], y[..];
    hide Output;
    assert BlocksDone(kernel, 0, xs, before, y[..]);
    for h := 0 to howmany
      invariant BlocksDone(kernel, h, xs, before, y[..])
      invariant forall a :: 16 * h <= a < x.Length ==> x[a] == xs[a]
    {
      ghost var mid := y[..];
      var input := x[16 * h..16 * h + 16];
      assert input == Block(xs, h);
      hide BlocksDone, Block;
      Store(y, 16 * h, Output(kernel, input));
      OneMoreBlock(kernel, h, xs, before, mid, y[..]);
      ghost var after := y[..];
      assert forall a :: 16 * h + 16 <= a < y.Length ==> after[a] == mid[a];
    }
  }

  lemma BlockOutput(kernel: Kernel, howmany: nat, xs: lanes, before: lanes, after: lanes, h: nat, o: nat)
    requires BlocksDone(kernel, howmany, xs, before, after) && 16 * howmany <= |after| && h < howmany && o < 16
    ensures after[16 * h + o] == Output(kernel, Block(xs, h))[o]
  {
    hide Output;
    assert Block(after, h)[o] == after[16 * h + o];
  }

  /** So a batch of blocks of signed bytes is within one of the scalar kernel everywhere. */
  lemma BatchWithinOne(kernel: Kernel, howmany: nat, xs: lanes, before: lanes, after: lanes, h: nat, o: nat)
    requires BlocksDone(kernel, howmany, xs, before, after) && 16 * howmany <= |after|
    requires h < howmany && o < 16 && IsBlock(Block(xs, h))
    ensures -1 <= after[16 * h + o] - RoundShift(Reference(o, Block(xs, h))) <= 1
  {
    hide *;
    BlockOutput(kernel, howmany, xs, before, after, h, o);
    WithinOne(kernel, Block(xs, h), o);
  }
}
