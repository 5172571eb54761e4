/** The records of a 64-bit little-endian ELF object file: how they are stored and read back.
    Layouts and constants follow the System V gABI, chapter 4 "Object Files".
 */
module ElfFormat {
  import opened Integers

  type byte = x: int | 0 <= x < 256

  /** Names never contain the byte that ends them. */
  type name = s: seq<byte> | 0 !in s witness []

  // ----- integers

  function PowerOf256(n: nat): pos { if n == 0 then 1 else 256 * PowerOf256(n - 1) }

  /** The low n bytes of v, least significant first; negative numbers in two's complement. */
  function LittleEndian(v: int, n: nat): (s: seq<byte>)
    ensures |s| == n
    decreases n
  {
    if n == 0 then [] else [v % 256] + LittleEndian(v / 256, n - 1)
  }

  function Value(s: seq<byte>): int {
    if s == [] then 0 else s[0] + 256 * Value(s[1..])
  }

  lemma {:induction false} ValueOfLittleEndian(v: int, n: nat)
    requires 0 <= v < PowerOf256(n)
    ensures Value(LittleEndian(v, n)) == v
    decreases n
  {
    if n > 0 {
      ValueOfLittleEndian(v / 256, n - 1);
      assert LittleEndian(v, n)[1..] == LittleEndian(v / 256, n - 1);
    }
  }

  /** A negative number reads back shifted by the modulus. */
  lemma {:induction false} ValueOfNegative(v: int, n: nat)
    requires 0 <= v + PowerOf256(n) && v < 0
    ensures Value(LittleEndian(v, n)) == v + PowerOf256(n)
    decreases n
  {
    if n > 0 {
      ValueOfNegative(v / 256, n - 1);
      assert LittleEndian(v, n)[1..] == LittleEndian(v / 256, n - 1);
    }
  }

  // ----- records as lists of fields

  /** Values and widths in bytes. */
  type fields = seq<(int, nat)>

  function Stored(fs: fields): seq<byte> {
    if fs == [] then [] else LittleEndian(fs[0].0, fs[0].1) + Stored(fs[1..])
  }

  function Width(fs: fields): nat { if fs == [] then 0 else fs[0].1 + Width(fs[1..]) }

  function FieldAt(s: seq<byte>, base: int, width: int): int {
    if 0 <= base && 0 <= width && base + width <= |s| then Value(s[base..base + width]) else 0
  }

  ghost predicate FieldsFit(fs: fields) { forall i :: 0 <= i < |fs| ==> 0 <= fs[i].0 < PowerOf256(fs[i].1) }

  lemma {:induction false} StoredWidth(fs: fields)
    ensures |Stored(fs)| == Width(fs)
  {
    if fs != [] { StoredWidth(fs[1..]); }
  }

  /** Each field of a stored record reads back, wherever the record stands. */
  lemma {:induction false} FieldReadsBack(fs: fields, i: nat, s: seq<byte>, base: nat)
    requires FieldsFit(fs) && i < |fs|
    requires base + Width(fs) <= |s| && s[base..base + Width(fs)] == Stored(fs)
    ensures FieldAt(s, base + Width(fs[..i]), fs[i].1) == fs[i].0
    decreases |fs|
  {
    var head, tail := LittleEndian(fs[0].0, fs[0].1), Stored(fs[1..]);
    StoredWidth(fs);
    StoredWidth(fs[1..]);
    var mid := base + fs[0].1;
    assert s[base..mid] == s[base..base + Width(fs)][..fs[0].1] == head;
    assert s[mid..mid + Width(fs[1..])] == s[base..base + Width(fs)][fs[0].1..] == tail;
    if i == 0 {
      ValueOfLittleEndian(fs[0].0, fs[0].1);
      assert fs[..0] == [];
    } else {
      FieldReadsBack(fs[1..], i - 1, s, mid);
      assert fs[..i][1..] == fs[1..][..i - 1];
      assert fs[..i][0] == fs[0];
    }
  }

  // ----- the records


  /** 127 'E' 'L' 'F' */
  const MAGIC := 127 + 256 * 69 + 65536 * 76 + 16777216 * 70

  const ET_REL := 1
  const EM_AARCH64 := 183
  const SHT_NULL := 0
  const SHT_PROGBITS := 1
  const SHT_SYMTAB := 2
  const SHT_STRTAB := 3
  const SHT_RELA := 4
  const SHF_ALLOC := 2
  const SHF_EXECINSTR := 4
  const STB_LOCAL := 0
  const STB_GLOBAL := 1
  const STT_NOTYPE := 0
  const STT_FUNC := 2
  const STT_SECTION := 3

  datatype Shdr = Shdr(nm: int, typ: int, flags: int, addr: int, offset: int, size: int, link: int, info: int,
                       align: int, entsize: int)
  {
    function Fields(): fields {
      [(nm, 4), (typ, 4), (flags, 8), (addr, 8), (offset, 8), (size, 8), (link, 4), (info, 4), (align, 8), (entsize, 8)]
    }
  }

  datatype Sym = Sym(nm: int, info: int, other: int, shndx: int, value: int, size: int) {
    function Fields(): fields { [(nm, 4), (info, 1), (other, 1), (shndx, 2), (value, 8), (size, 8)] }

    predicate Local() { info / 16 == STB_LOCAL }
  }

  /** The symbol index and the type share one field. */
  datatype Rela = Rela(offset: int, sym: int, typ: int, addend: int) {
    function Fields(): fields { [(offset, 8), (typ, 4), (sym, 4), (addend, 8)] }
  }

  function EhdrFields(shoff: int, shnum: int, shstrndx: int): fields {
    [(MAGIC, 4), (2, 1), (1, 1), (1, 1), (0, 1), (0, 8),
     (ET_REL, 2), (EM_AARCH64, 2), (1, 4), (0, 8), (0, 8), (shoff, 8), (0, 4), (64, 2), (0, 2), (0, 2),
     (64, 2), (shnum, 2), (shstrndx, 2)]
  }

  function ReadShdr(s: seq<byte>, b: int): Shdr {
    Shdr(FieldAt(s, b, 4), FieldAt(s, b + 4, 4), FieldAt(s, b + 8, 8), FieldAt(s, b + 16, 8), FieldAt(s, b + 24, 8),
         FieldAt(s, b + 32, 8), FieldAt(s, b + 40, 4), FieldAt(s, b + 44, 4), FieldAt(s, b + 48, 8), FieldAt(s, b + 56, 8))
  }

  function ReadSym(s: seq<byte>, b: int): Sym {
    Sym(FieldAt(s, b, 4), FieldAt(s, b + 4, 1), FieldAt(s, b + 5, 1), FieldAt(s, b + 6, 2), FieldAt(s, b + 8, 8),
        FieldAt(s, b + 16, 8))
  }

  function ReadRela(s: seq<byte>, b: int): Rela {
    Rela(FieldAt(s, b, 8), FieldAt(s, b + 12, 4), FieldAt(s, b + 8, 4), FieldAt(s, b + 16, 8))
  }

  lemma WidthSteps(fs: fields, i: nat)
    requires i < |fs|
    ensures Width(fs[..0]) == 0
    ensures Width(fs[..i + 1]) == Width(fs[..i]) + fs[i].1
    decreases |fs|
  {
    if i == 0 {
      assert fs[..1][1..] == [];
    } else {
      WidthSteps(fs[1..], i - 1);
      assert fs[..i + 1][1..] == fs[1..][..i];
      assert fs[..i][1..] == fs[1..][..i - 1];
    }
  }

  /** One field, and where the next one begins. */
  lemma NextField(fs: fields, i: nat, o: nat, s: seq<byte>, b: nat)
    requires FieldsFit(fs) && i < |fs| && Width(fs[..i]) == o
    requires b + Width(fs) <= |s| && s[b..b + Width(fs)] == Stored(fs)
    ensures FieldAt(s, b + o, fs[i].1) == fs[i].0 && Width(fs[..i + 1]) == o + fs[i].1
  {
    FieldReadsBack(fs, i, s, b);
    WidthSteps(fs, i);
  }

  lemma WidthOfAll(fs: fields)
    ensures Width(fs[..|fs|]) == Width(fs) && Width(fs[..0]) == 0
  {
    assert fs[..|fs|] == fs;
  }

  /** The record starts at b and the buffer holds all of it. */
  ghost predicate Holds(s: seq<byte>, b: int, fs: fields) {
    0 <= b && b + Width(fs) <= |s| && s[b..b + Width(fs)] == Stored(fs) && FieldsFit(fs)
  }

  lemma ShdrReadsBack(sh: Shdr, s: seq<byte>, b: nat)
    requires Holds(s, b, sh.Fields())
    ensures ReadShdr(s, b) == sh
  {
    var fs := sh.Fields();
    WidthOfAll(fs);
    hide Stored, FieldsFit, FieldAt, Width;
    NextField(fs, 0, 0, s, b);
    NextField(fs, 1, 4, s, b);
    NextField(fs, 2, 8, s, b);
    NextField(fs, 3, 16, s, b);
    NextField(fs, 4, 24, s, b);
    NextField(fs, 5, 32, s, b);
    NextField(fs, 6, 40, s, b);
    NextField(fs, 7, 44, s, b);
    NextField(fs, 8, 48, s, b);
    NextField(fs, 9, 56, s, b);
  }

  lemma SymReadsBack(sym: Sym, s: seq<byte>, b: nat)
    requires Holds(s, b, sym.Fields())
    ensures ReadSym(s, b) == sym
  {
    var fs := sym.Fields();
    WidthOfAll(fs);
    hide Stored, FieldsFit, FieldAt, Width;
    NextField(fs, 0, 0, s, b);
    NextField(fs, 1, 4, s, b);
    NextField(fs, 2, 5, s, b);
    NextField(fs, 3, 6, s, b);
    NextField(fs, 4, 8, s, b);
    NextField(fs, 5, 16, s, b);
  }

  lemma RelaReadsBack(r: Rela, s: seq<byte>, b: nat)
    requires Holds(s, b, r.Fields())
    ensures ReadRela(s, b) == r
  {
    var fs := r.Fields();
    WidthOfAll(fs);
    hide Stored, FieldsFit, FieldAt, Width;
    NextField(fs, 0, 0, s, b);
    NextField(fs, 1, 8, s, b);
    NextField(fs, 2, 12, s, b);
    NextField(fs, 3, 16, s, b);
  }

  lemma {:induction false} SumOfWidths(fs: fields, ws: seq<nat>)
    requires |ws| == |fs| && forall i :: 0 <= i < |fs| ==> fs[i].1 == ws[i]
    ensures Width(fs) == Total(ws)
  {
    if fs != [] { SumOfWidths(fs[1..], ws[1..]); }
  }

  function Total(ws: seq<nat>): nat { if ws == [] then 0 else ws[0] + Total(ws[1..]) }

  lemma TotalOf(a: seq<nat>, b: seq<nat>)
    ensures Total(a + b) == Total(a) + Total(b)
  {
    if a == [] {
      assert a + b == b;
    } else {
      TotalOf(a[1..], b);
      assert (a + b)[1..] == a[1..] + b;
    }
  }

  lemma TotalOfPair(a: nat, b: nat)
    ensures Total([a]) == a && Total([a, b]) == a + b
  {
    assert [a, b][1..] == [b] && [b][1..] == [] && [a][1..] == [];
    assert Total([b]) == b;
  }

  lemma Totals(a: nat, b: nat, c: nat, d: nat, e: nat)
    ensures Total([a, b]) == a + b && Total([a, b, c, d]) == a + b + c + d && Total([a, b, c, d, e]) == a + b + c + d + e
  {
    TotalOfPair(a, b);
    TotalOfPair(c, d);
    TotalOfPair(e, e);
    TotalOf([a, b], [c, d]);
    TotalOf([a, b] + [c, d], [e]);
    assert [a, b] + [c, d] == [a, b, c, d] && [a, b] + [c, d] + [e] == [a, b, c, d, e];
  }

  /** The widths of the stored records. */
  lemma ShdrWidth(sh: Shdr)
    ensures |Stored(sh.Fields())| == Width(sh.Fields()) == 64
  {
    hide Total, Width, Stored;
    StoredWidth(sh.Fields());
    SumOfWidths(sh.Fields(), [4, 4, 8, 8, 8, 8, 4, 4, 8, 8]);
    Totals(4, 4, 8, 8, 8);
    Totals(8, 4, 4, 8, 8);
    TotalOf([4, 4, 8, 8, 8], [8, 4, 4, 8, 8]);
    assert [4, 4, 8, 8, 8] + [8, 4, 4, 8, 8] == [4, 4, 8, 8, 8, 8, 4, 4, 8, 8];
  }

  lemma SymWidth(sym: Sym)
    ensures |Stored(sym.Fields())| == Width(sym.Fields()) == 24
  {
    hide Total, Width, Stored;
    StoredWidth(sym.Fields());
    SumOfWidths(sym.Fields(), [4, 1, 1, 2, 8, 8]);
    Totals(4, 1, 1, 2, 8);
    Totals(8, 8, 0, 0, 0);
    TotalOf([4, 1, 1, 2], [8, 8]);
    assert [4, 1, 1, 2] + [8, 8] == [4, 1, 1, 2, 8, 8];
  }

  lemma RelaWidth(r: Rela)
    ensures |Stored(r.Fields())| == Width(r.Fields()) == 24
  {
    hide Total, Width, Stored;
    StoredWidth(r.Fields());
    SumOfWidths(r.Fields(), [8, 4, 4, 8]);
    Totals(8, 4, 4, 8, 0);
  }

  lemma EhdrWidth(shoff: int, shnum: int, shstrndx: int)
    ensures |Stored(EhdrFields(shoff, shnum, shstrndx))| == Width(EhdrFields(shoff, shnum, shstrndx)) == 64
  {
    hide Total, Width, Stored;
    var fs := EhdrFields(shoff, shnum, shstrndx);
    StoredWidth(fs);
    SumOfWidths(fs, EHDR_WIDTHS);
    Totals(4, 1, 1, 1, 1);
    Totals(8, 2, 2, 4, 8);
    Totals(8, 8, 4, 2, 2);
    Totals(2, 2, 2, 2, 0);
    TotalOf([4, 1, 1, 1, 1], [8, 2, 2, 4, 8]);
    TotalOf([8, 8, 4, 2, 2], [2, 2, 2, 2]);
    TotalOf([4, 1, 1, 1, 1] + [8, 2, 2, 4, 8], [8, 8, 4, 2, 2] + [2, 2, 2, 2]);
    assert ([4, 1, 1, 1, 1] + [8, 2, 2, 4, 8]) + ([8, 8, 4, 2, 2] + [2, 2, 2, 2]) ==
           EHDR_WIDTHS;
  }

  const EHDR_WIDTHS: seq<nat> := [4, 1, 1, 1, 1, 8, 2, 2, 4, 8, 8, 8, 4, 2, 2, 2, 2, 2, 2]

  /** The file header by offset and value, as section "ELF Header" of the chapter lays it out for a
      relocatable AArch64 file of 64-bit class in little-endian encoding without a program header table.
   */
  ghost predicate HeaderValues(s: seq<byte>, shoff: int, shnum: int, shstrndx: int) {
    && IdentValues(s)
    && FieldAt(s, 16, 2) == 1 && FieldAt(s, 18, 2) == 183 && FieldAt(s, 20, 4) == 1
    && FieldAt(s, 24, 8) == 0 && FieldAt(s, 32, 8) == 0 && FieldAt(s, 40, 8) == shoff && FieldAt(s, 48, 4) == 0
    && FieldAt(s, 52, 2) == 64 && FieldAt(s, 54, 2) == 0 && FieldAt(s, 56, 2) == 0 && FieldAt(s, 58, 2) == 64
    && FieldAt(s, 60, 2) == shnum && FieldAt(s, 62, 2) == shstrndx
  }

  /** The magic bytes, 64-bit class, little-endian encoding, version 1, no ABI, and zeros. */
  ghost predicate IdentValues(s: seq<byte>) {
    && |s| >= 16 && s[..4] == [127, 'E' as int, 'L' as int, 'F' as int]
    && s[4] == 2 && s[5] == 1 && s[6] == 1 && s[7] == 0 && s[8..16] == [0, 0, 0, 0, 0, 0, 0, 0]
  }

  lemma {:induction false} FieldsStand(fs: fields, i: nat, s: seq<byte>, base: nat)
    requires i < |fs| && base + Width(fs) <= |s| && s[base..base + Width(fs)] == Stored(fs)
    ensures 0 <= Width(fs[..i]) && Width(fs[..i]) + fs[i].1 <= Width(fs)
    ensures s[base + Width(fs[..i])..base + Width(fs[..i]) + fs[i].1] == LittleEndian(fs[i].0, fs[i].1)
    decreases |fs|
  {
    StoredWidth(fs);
    StoredWidth(fs[1..]);
    var mid := base + fs[0].1;
    assert s[base..mid] == s[base..base + Width(fs)][..fs[0].1];
    assert s[mid..mid + Width(fs[1..])] == s[base..base + Width(fs)][fs[0].1..];
    if i == 0 {
      assert fs[..0] == [];
    } else {
      FieldsStand(fs[1..], i - 1, s, mid);
      assert fs[..i][1..] == fs[1..][..i - 1];
      assert fs[..i][0] == fs[0];
    }
  }

  /** One field as bytes, and where the next one begins. */
  lemma NextBytes(fs: fields, i: nat, o: nat, s: seq<byte>)
    requires i < |fs| && Width(fs[..i]) == o && Width(fs) <= |s| && s[0..Width(fs)] == Stored(fs)
    ensures o + fs[i].1 <= |s| && s[o..o + fs[i].1] == LittleEndian(fs[i].0, fs[i].1) && Width(fs[..i + 1]) == o + fs[i].1
  {
    FieldsStand(fs, i, s, 0);
    WidthSteps(fs, i);
  }

  lemma IdentBytes()
    ensures LittleEndian(MAGIC, 4) == [127, 'E' as int, 'L' as int, 'F' as int]
    ensures LittleEndian(0, 1) == [0] && LittleEndian(1, 1) == [1] && LittleEndian(2, 1) == [2]
    ensures LittleEndian(0, 8) == [0, 0, 0, 0, 0, 0, 0, 0]
  {
    assert LittleEndian(MAGIC / 65536, 2) == [76, 70];
    assert LittleEndian(MAGIC / 256, 3) == [69] + LittleEndian(MAGIC / 65536, 2);
    assert LittleEndian(0, 4) == [0, 0, 0, 0] by { assert LittleEndian(0, 2) == [0, 0]; assert LittleEndian(0, 3) == [0] + LittleEndian(0, 2); }
    assert LittleEndian(0, 5) == [0] + LittleEndian(0, 4);
    assert LittleEndian(0, 6) == [0] + LittleEndian(0, 5);
    assert LittleEndian(0, 7) == [0] + LittleEndian(0, 6);
  }

  lemma IdentReadsBack(shoff: int, shnum: int, shstrndx: int, s: seq<byte>)
    requires Holds(s, 0, EhdrFields(shoff, shnum, shstrndx))
    ensures IdentValues(s)
    ensures Width(EhdrFields(shoff, shnum, shstrndx)[..6]) == 16
  {
    var fs := EhdrFields(shoff, shnum, shstrndx);
    EhdrWidth(shoff, shnum, shstrndx);
    WidthOfAll(fs);
    IdentBytes();
    hide Stored, FieldsFit, LittleEndian, Width;
    NextBytes(fs, 0, 0, s);
    NextBytes(fs, 1, 4, s);
    NextBytes(fs, 2, 5, s);
    NextBytes(fs, 3, 6, s);
    NextBytes(fs, 4, 7, s);
    NextBytes(fs, 5, 8, s);
    assert s[4..5] == [s[4]] && s[5..6] == [s[5]] && s[6..7] == [s[6]] && s[7..8] == [s[7]];
  }

  /** Every field of the file header reads back with its value. */
  lemma EhdrReadsBack(shoff: int, shnum: int, shstrndx: int, s: seq<byte>)
    requires Holds(s, 0, EhdrFields(shoff, shnum, shstrndx))
    ensures HeaderValues(s, shoff, shnum, shstrndx)
  {
    var fs := EhdrFields(shoff, shnum, shstrndx);
    IdentReadsBack(shoff, shnum, shstrndx, s);
    hide Stored, FieldsFit, FieldAt, Width, IdentValues;
    NextField(fs, 6, 16, s, 0);
    NextField(fs, 7, 18, s, 0);
    NextField(fs, 8, 20, s, 0);
    NextField(fs, 9, 24, s, 0);
    NextField(fs, 10, 32, s, 0);
    NextField(fs, 11, 40, s, 0);
    NextField(fs, 12, 48, s, 0);
    NextField(fs, 13, 52, s, 0);
    NextField(fs, 14, 54, s, 0);
    NextField(fs, 15, 56, s, 0);
    NextField(fs, 16, 58, s, 0);
    NextField(fs, 17, 60, s, 0);
    NextField(fs, 18, 62, s, 0);
  }
}
