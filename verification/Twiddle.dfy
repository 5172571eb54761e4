/** The blocked, interleaved and optionally pre-multiplied table of twiddle factors. */
module Twiddle {
  import opened Integers
  import opened Algebra
  import opened Roots
  import opened Transform
  import opened Memory

  /** Slots per factor (2 when the factor times the imaginary unit is stored after it), rows
      per block, and whether the all-ones row 0 is stored.
   */
  datatype TableLayout = TableLayout(slots: pos, interleave: pos, unityRow: bool) {
    function FirstRow(): nat { if unityRow then 0 else 1 }

    /** The slot of row, counted from the first stored row, and column i >= 1 of n. */
    function Slot(n: int, row: int, i: int): int {
      slots * ((row / interleave * (n - 1) + (i - 1)) * interleave + row % interleave)
    }
  }

  function RoundUpDiv(n: nat, r: pos): nat { if n % r != 0 then n / r + 1 else n / r }

  /** The factor of row j and column i; rows past the end are padded with zeros. */
  function Factor<T>(u: Roots<T>, d: int, n1: int, n2: int, j: int, i: int): T {
    if j < n1 then u.w(n1 * n2, Phase(d, j, i)) else u.ring.zero
  }

  /** The content of slot x. */
  function SlotValue<T>(u: Roots<T>, d: int, n1: int, n2: int, l: TableLayout, x: int): T
    requires n2 > 1
  {
    var c, v := x / l.slots, l.interleave;
    var rest := c / v;
    var f := Factor(u, d, n1, n2, l.FirstRow() + rest / (n2 - 1) * v + c % v, rest % (n2 - 1) + 1);
    if x % l.slots == 0 then f else u.ring.mul(u.im, f)
  }

  lemma DecodeSlot(slots: pos, v: pos, m: pos, block: nat, i: nat, jj: nat, s: nat, x: int)
    requires i < m && jj < v && s < slots
    requires x == slots * ((block * m + i) * v + jj) + s
    ensures x % slots == s && x / slots == (block * m + i) * v + jj
    ensures x / slots % v == jj && x / slots / v == block * m + i
    ensures x / slots / v % m == i && x / slots / v / m == block
  {
    var c := (block * m + i) * v + jj;
    ModUnique(x, slots, c, s);
    assert c == v * (block * m + i) + jj;
    ModUnique(c, v, block * m + i, jj);
    assert block * m + i == m * block + i;
    ModUnique(block * m + i, m, block, i);
  }

  /** One more block of rows is needed exactly while its first row exists. */
  lemma BlockExists(rows: nat, v: pos, block: nat)
    ensures block * v < rows <==> block < RoundUpDiv(rows, v)
  {
    var q := rows / v;
    assert rows == v * q + rows % v;
    if block < q { MulGrows(v, q - block); }
    if block > q { MulGrows(v, block - q); }
    assert block * v == v * q + v * (block - q);
  }

  /** Slot s of factor (block, i, jj) holds what SlotValue says. */
  lemma SlotContent<T(!new)>(u: Roots<T>, d: int, n1: int, n2: int, l: TableLayout,
                             block: nat, i: nat, jj: nat, row: nat, c: nat, s: nat)
    requires n2 > 1 && i < n2 - 1 && jj < l.interleave && s < l.slots
    requires row == block * (n2 - 1) + i && c == row * l.interleave + jj
    ensures var f := Factor(u, d, n1, n2, l.FirstRow() + block * l.interleave + jj, i + 1);
      SlotValue(u, d, n1, n2, l, l.slots * c + s) == if s == 0 then f else u.ring.mul(u.im, f)
  {
    DecodeSlot(l.slots, l.interleave, n2 - 1, block, i, jj, s, l.slots * c + s);
  }

  ghost predicate TablePrefix<T>(u: Roots<T>, d: int, n1: int, n2: int, l: TableLayout, out: seq<T>)
    requires n2 > 1
  {
    forall x :: 0 <= x < |out| ==> out[x] == SlotValue(u, d, n1, n2, l, x)
  }

  /** Appends the interleaved factors of column i for the block of rows from j on. */
  method AppendFactors<T(!new)>(u: Roots<T>, d: int, n1: pos, n2: pos, l: TableLayout, before: seq<T>,
                                j: int, i: int, ghost block: nat, ghost row: nat) returns (out: seq<T>)
    requires n2 > 1 && l.slots <= 2 && 1 <= i < n2
    requires j == l.FirstRow() + block * l.interleave && row == block * (n2 - 1) + (i - 1)
    requires |before| == l.slots * (row * l.interleave) && TablePrefix(u, d, n1, n2, l, before)
    ensures |out| == l.slots * ((row + 1) * l.interleave) && TablePrefix(u, d, n1, n2, l, out)
  {
    hide SlotValue, Factor;
    out := before;
    for jj := 0 to l.interleave
      invariant |out| == l.slots * (row * l.interleave + jj) && TablePrefix(u, d, n1, n2, l, out)
    {
      ghost var c := row * l.interleave + jj;
      SlotContent(u, d, n1, n2, l, block, i - 1, jj, row, c, 0);
      var f := Factor(u, d, n1, n2, j + jj, i);
      out := out + [f];
      if l.slots == 2 {
        SlotContent(u, d, n1, n2, l, block, i - 1, jj, row, c, 1);
        out := out + [u.ring.mul(u.im, f)];
      }
    }
    assert (row + 1) * l.interleave == row * l.interleave + l.interleave;
  }

  method GenerateTwiddles<T(!new)>(u: Roots<T>, d: int, n1: pos, n2: pos, l: TableLayout) returns (out: seq<T>)
    requires n2 > 1 && l.slots <= 2
    ensures |out| == l.slots * (RoundUpDiv(n1 - l.FirstRow(), l.interleave) * (n2 - 1) * l.interleave)
    ensures TablePrefix(u, d, n1, n2, l, out)
  {
    hide TablePrefix, RoundUpDiv;
    var v, start := l.interleave, l.FirstRow();
    ghost var rows: nat, block := n1 - start, 0;
    out := [];
    assert TablePrefix(u, d, n1, n2, l, out) by { EmptyTable(u, d, n1, n2, l); }
    var j := start;
    BlockExists(rows, v, 0);
    while j < n1
      invariant j == start + block * v && block <= RoundUpDiv(rows, v)
      invariant |out| == l.slots * (block * (n2 - 1) * v) && TablePrefix(u, d, n1, n2, l, out)
      decreases RoundUpDiv(rows, v) - block
    {
      BlockExists(rows, v, block);
      for i := 1 to n2
        invariant |out| == l.slots * ((block * (n2 - 1) + (i - 1)) * v) && TablePrefix(u, d, n1, n2, l, out)
      {
        out := AppendFactors(u, d, n1, n2, l, out, j, i, block, block * (n2 - 1) + (i - 1));
      }
      assert block * (n2 - 1) + (n2 - 1) == (block + 1) * (n2 - 1);
      block := block + 1;
      j := j + v;
    }
    BlockExists(rows, v, block);
  }

  lemma EmptyTable<T>(u: Roots<T>, d: int, n1: int, n2: int, l: TableLayout)
    requires n2 > 1
    ensures TablePrefix(u, d, n1, n2, l, [])
  {
  }

  /** Where the table holds the factor of row and column i, and its product with the imaginary unit. */
  lemma SlotHoldsFactor<T(!new)>(u: Roots<T>, d: int, n1: pos, n2: pos, l: TableLayout, row: nat, i: nat)
    requires n2 > 1 && 1 <= i < n2 && l.FirstRow() + row < n1
    ensures SlotValue(u, d, n1, n2, l, l.Slot(n2, row, i)) == u.w(n1 * n2, Phase(d, l.FirstRow() + row, i))
    ensures l.slots == 2 ==>
              SlotValue(u, d, n1, n2, l, l.Slot(n2, row, i) + 1) == u.ring.mul(u.im, u.w(n1 * n2, Phase(d, l.FirstRow() + row, i)))
    ensures 0 <= l.Slot(n2, row, i)
    ensures l.Slot(n2, row, i) + l.slots <= l.slots * (RoundUpDiv(n1 - l.FirstRow(), l.interleave) * (n2 - 1) * l.interleave)
  {
    hide SlotValue, RoundUpDiv, Phase;
    var v, m := l.interleave, n2 - 1;
    var block, jj := row / v, row % v;
    var c := (block * m + (i - 1)) * v + jj;
    assert row == block * v + jj;
    assert l.Slot(n2, row, i) == l.slots * c;
    hide TableLayout.Slot;
    SlotContent(u, d, n1, n2, l, block, i - 1, jj, block * m + (i - 1), c, 0);
    if l.slots == 2 { SlotContent(u, d, n1, n2, l, block, i - 1, jj, block * m + (i - 1), c, 1); }
    BlockExists(n1 - l.FirstRow(), v, block);
    SlotBound(l.slots, RoundUpDiv(n1 - l.FirstRow(), v), m, v, block, i - 1, jj);
  }

  lemma SlotBound(slots: pos, blocks: nat, m: pos, v: pos, block: nat, i: nat, jj: nat)
    requires block < blocks && i < m && jj < v
    ensures 0 <= slots * ((block * m + i) * v + jj) <= slots * (blocks * m * v) - slots
  {
    var row := block * m + i;
    MulGrows(m, blocks - block);
    assert blocks * m == block * m + m * (blocks - block);
    assert row < blocks * m;
    MulGrows(v, blocks * m - row);
    assert blocks * m * v == row * v + v * (blocks * m - row);
    var c := row * v + jj;
    assert 0 <= row * v;
    MulGrows(slots, c);
    var left := blocks * m * v - c;
    if left > 1 { MulGrows(slots, left - 1); }
    assert slots * (blocks * m * v) == slots * c + slots * left;
    assert slots * left == slots + slots * (left - 1);
  }
}
