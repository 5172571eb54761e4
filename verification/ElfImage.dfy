/** What the object file of some compiled functions contains, part by part. */
module ElfImage {
  import opened ElfFormat

  datatype Reloc = Reloc(nm: name, offset: int, typ: int, addend: int)

  datatype FnEntry = FnEntry(nm: name, textAddr: int, text: seq<byte>, dataAddr: int, data: seq<byte>, relocs: seq<Reloc>)

  type entries = seq<FnEntry>

  /** ".text.", ".rela.text." and ".rodata." */
  const DOT_TEXT: name := [46, 116, 101, 120, 116, 46]
  const DOT_RELA_TEXT: name := [46, 114, 101, 108, 97, 46, 116, 101, 120, 116, 46]
  const DOT_RODATA: name := [46, 114, 111, 100, 97, 116, 97, 46]

  /** ".symtab", ".shstrtab" and ".strtab" */
  const SYMTAB_NAME: name := [46, 115, 121, 109, 116, 97, 98]
  const SHSTRTAB_NAME: name := [46, 115, 104, 115, 116, 114, 116, 97, 98]
  const STRTAB_NAME: name := [46, 115, 116, 114, 116, 97, 98]

  function TextName(nm: name): (r: name)
    ensures |r| == |nm| + 6
  {
    DOT_TEXT + nm
  }

  function RelaName(nm: name): (r: name)
    ensures |r| == |nm| + 11
  {
    DOT_RELA_TEXT + nm
  }

  function RodataName(nm: name): (r: name)
    ensures |r| == |nm| + 8
  {
    DOT_RODATA + nm
  }

  // ----- concatenations

  function Gather(f: int -> seq<byte>, n: nat): seq<byte> {
    if n == 0 then [] else Gather(f, n - 1) + f(n - 1)
  }

  lemma {:induction false} GatherSlice(f: int -> seq<byte>, n: nat, i: nat)
    requires i < n
    ensures |Gather(f, i)| + |f(i)| <= |Gather(f, n)|
    ensures Gather(f, n)[|Gather(f, i)|..|Gather(f, i)| + |f(i)|] == f(i)
  {
    if i < n - 1 {
      GatherSlice(f, n - 1, i);
      var a, b := |Gather(f, i)|, |Gather(f, i)| + |f(i)|;
      assert Gather(f, n)[a..b] == Gather(f, n - 1)[a..b];
    }
  }

  /** Records one after the other. */
  function Records(rs: seq<fields>): seq<byte> {
    if rs == [] then [] else Records(rs[..|rs| - 1]) + Stored(rs[|rs| - 1])
  }

  lemma {:induction false} RecordsLength(rs: seq<fields>, w: nat)
    requires forall i :: 0 <= i < |rs| ==> |Stored(rs[i])| == w
    ensures |Records(rs)| == w * |rs|
    decreases |rs|
  {
    hide Stored;
    if rs != [] {
      RecordsLength(rs[..|rs| - 1], w);
      assert w * |rs| == w * (|rs| - 1) + w;
    }
  }

  lemma {:induction false} RecordAt(rs: seq<fields>, w: nat, k: nat)
    requires (forall i :: 0 <= i < |rs| ==> |Stored(rs[i])| == w) && k < |rs|
    ensures 0 <= w * k <= w * k + w <= |Records(rs)| && Records(rs)[w * k..w * k + w] == Stored(rs[k])
    decreases |rs|
  {
    hide Stored;
    var front := rs[..|rs| - 1];
    RecordsLength(front, w);
    var a := w * k;
    if k < |front| {
      RecordAt(front, w, k);
      assert Records(rs)[a..a + w] == Records(front)[a..a + w];
    } else {
      assert a == |Records(front)|;
    }
  }

  lemma RecordsAppend(rs: seq<fields>, r: fields)
    ensures Records(rs + [r]) == Records(rs) + Stored(r)
  {
    assert (rs + [r])[..|rs|] == rs;
  }

  // ----- symbols

  function LocalNames(es: entries, n: nat): seq<name>
    requires n <= |es|
  {
    if n == 0 then [] else
      LocalNames(es, n - 1) + [TextName(es[n - 1].nm)] + (if es[n - 1].data != [] then [RodataName(es[n - 1].nm)] else [])
  }

  function FnNames(es: entries): seq<name> { seq(|es|, i requires 0 <= i < |es| => es[i].nm) }

  function RelocNames(es: entries, n: nat): seq<name>
    requires n <= |es|
  {
    if n == 0 then [] else
      RelocNames(es, n - 1) + seq(|es[n - 1].relocs|, k requires 0 <= k < |es[n - 1].relocs| => es[n - 1].relocs[k].nm)
  }

  /** The names not known yet, in order and without repetition. */
  function Missing(ns: seq<name>, known: seq<name>): seq<name> {
    if ns == [] then [] else
      var m := Missing(ns[..|ns| - 1], known);
      if ns[|ns| - 1] in known + m then m else m + [ns[|ns| - 1]]
  }

  /** Names of the symbols that have names in the string table. */
  function GlobalNames(es: entries): seq<name> {
    FnNames(es) + Missing(RelocNames(es, |es|), LocalNames(es, |es|) + FnNames(es))
  }

  /** Symbol i + 1 stands for element i. */
  function SymbolNames(es: entries): seq<name> { LocalNames(es, |es|) + GlobalNames(es) }

  ghost predicate Distinct(ns: seq<name>) { forall i, j :: 0 <= i < j < |ns| ==> ns[i] != ns[j] }

  /** No function has the name of another one or of a section symbol. */
  ghost predicate WellNamed(es: entries) { Distinct(LocalNames(es, |es|) + FnNames(es)) }

  function Position(ns: seq<name>, nm: name): nat { if ns == [] || ns[0] == nm then 0 else 1 + Position(ns[1..], nm) }

  function SymbolIndex(es: entries, nm: name): nat { 1 + Position(SymbolNames(es), nm) }

  // ----- sizes and places

  function Sections(e: FnEntry): nat { 1 + (if e.relocs != [] then 1 else 0) + (if e.data != [] then 1 else 0) }

  function SectionCount(es: entries, n: nat): nat
    requires n <= |es|
  {
    if n == 0 then 0 else SectionCount(es, n - 1) + Sections(es[n - 1])
  }

  function TextIndex(es: entries, i: nat): nat
    requires i <= |es|
  {
    1 + SectionCount(es, i)
  }

  function RodataIndex(es: entries, i: nat): nat
    requires i < |es|
  {
    TextIndex(es, i) + 1 + (if es[i].relocs != [] then 1 else 0)
  }

  function SectionTotal(es: entries): nat { 1 + SectionCount(es, |es|) + 3 }

  function Blob(es: entries): int -> seq<byte> { i => if 0 <= i < |es| then es[i].text + es[i].data else [] }

  function SectionNames(e: FnEntry): seq<byte> {
    TextName(e.nm) + [0]
    + (if e.relocs != [] then RelaName(e.nm) + [0] else [])
    + (if e.data != [] then RodataName(e.nm) + [0] else [])
  }

  function NamePieces(es: entries): int -> seq<byte> { i => if 0 <= i < |es| then SectionNames(es[i]) else [] }

  function StringPieces(ns: seq<name>): int -> seq<byte> { i => if 0 <= i < |ns| then ns[i] + [0] else [] }

  function RelocCount(es: entries, n: nat): nat
    requires n <= |es|
  {
    if n == 0 then 0 else RelocCount(es, n - 1) + |es[n - 1].relocs|
  }

  function BaseNames(): seq<byte> { [0] + (SYMTAB_NAME + [0]) + (SHSTRTAB_NAME + [0]) + (STRTAB_NAME + [0]) }

  function BlobOffset(es: entries, i: nat): nat { 64 + |Gather(Blob(es), i)| }

  function RelaOffset(es: entries, i: nat): nat
    requires i <= |es|
  {
    BlobOffset(es, |es|) + 24 * RelocCount(es, i)
  }

  function SectionNameOffset(es: entries, i: nat): nat { 27 + |Gather(NamePieces(es), i)| }

  function ShstrtabOffset(es: entries): nat { RelaOffset(es, |es|) }

  function StrtabOffset(es: entries): nat { ShstrtabOffset(es) + SectionNameOffset(es, |es|) }

  function StringOffset(ns: seq<name>, k: nat): nat { 1 + |Gather(StringPieces(ns), k)| }

  function SymtabOffset(es: entries): nat { StrtabOffset(es) + StringOffset(GlobalNames(es), |GlobalNames(es)|) }

  function SymbolTotal(es: entries): nat { 1 + |SymbolNames(es)| }

  function HeadersOffset(es: entries): nat { SymtabOffset(es) + 24 * SymbolTotal(es) }

  // ----- records

  /** A number of 64 bits in two's complement. */
  function Unsigned(v: int): int { if v < 0 then v + PowerOf256(8) else v }

  function RelaOf(es: entries, r: Reloc): ElfFormat.Rela { ElfFormat.Rela(r.offset, SymbolIndex(es, r.nm), r.typ, Unsigned(r.addend)) }

  function Relas(es: entries, n: nat): seq<fields>
    requires n <= |es|
  {
    if n == 0 then [] else
      Relas(es, n - 1) + seq(|es[n - 1].relocs|, k requires 0 <= k < |es[n - 1].relocs| => RelaOf(es, es[n - 1].relocs[k]).Fields())
  }

  function SectionSym(section: int): Sym { Sym(0, STB_LOCAL * 16 + STT_SECTION, 0, section, 0, 0) }

  function LocalSyms(es: entries, n: nat): seq<Sym>
    requires n <= |es|
  {
    if n == 0 then [] else
      LocalSyms(es, n - 1) + [SectionSym(TextIndex(es, n - 1))]
      + (if es[n - 1].data != [] then [SectionSym(RodataIndex(es, n - 1))] else [])
  }

  /** Symbol k of the string table: a function, or a name defined elsewhere. */
  function GlobalSym(es: entries, k: nat): Sym
    requires k < |GlobalNames(es)|
  {
    var nm := StringOffset(GlobalNames(es), k);
    if k < |es| then Sym(nm, STB_GLOBAL * 16 + STT_FUNC, 0, TextIndex(es, k), 0, |es[k].text|)
    else Sym(nm, STB_GLOBAL * 16, 0, 0, 0, 0)
  }

  function Syms(es: entries): seq<Sym> {
    [Sym(0, 0, 0, 0, 0, 0)] + LocalSyms(es, |es|)
    + seq(|GlobalNames(es)|, k requires 0 <= k < |GlobalNames(es)| => GlobalSym(es, k))
  }

  function TextHeader(es: entries, i: nat): Shdr
    requires i < |es|
  {
    Shdr(SectionNameOffset(es, i), SHT_PROGBITS, SHF_ALLOC + SHF_EXECINSTR, es[i].textAddr, BlobOffset(es, i), |es[i].text|, 0, 0, 4, 0)
  }

  function RelaHeader(es: entries, i: nat): Shdr
    requires i < |es|
  {
    Shdr(SectionNameOffset(es, i) + |es[i].nm| + 7, SHT_RELA, 0, 0, RelaOffset(es, i), |es[i].relocs| * 24,
         SectionTotal(es) - 3, TextIndex(es, i), 8, 24)
  }

  function RodataHeader(es: entries, i: nat): Shdr
    requires i < |es|
  {
    Shdr(SectionNameOffset(es, i) + |es[i].nm| + 7 + (if es[i].relocs != [] then |es[i].nm| + 12 else 0), SHT_PROGBITS, SHF_ALLOC,
         es[i].dataAddr, BlobOffset(es, i) + |es[i].text|, |es[i].data|, 0, 0, 8, 0)
  }

  function HeadersOf(es: entries, i: nat): (s: seq<Shdr>)
    requires i < |es|
    ensures |s| == Sections(es[i])
  {
    [TextHeader(es, i)] + (if es[i].relocs != [] then [RelaHeader(es, i)] else [])
    + (if es[i].data != [] then [RodataHeader(es, i)] else [])
  }

  function FnHeaders(es: entries, n: nat): seq<Shdr>
    requires n <= |es|
  {
    if n == 0 then [] else FnHeaders(es, n - 1) + HeadersOf(es, n - 1)
  }

  function StringHeader(nm: int, offset: int, size: int): Shdr { Shdr(nm, SHT_STRTAB, 0, 0, offset, size, 0, 0, 1, 0) }

  /** The tables' own headers: symbols, strings, section names. */
  function TableHeaders(es: entries): (s: seq<Shdr>)
    ensures |s| == 3
  {
    [Shdr(1, SHT_SYMTAB, 0, 0, SymtabOffset(es), SymbolTotal(es) * 24, SectionTotal(es) - 2,
          1 + |LocalSyms(es, |es|)|, 8, 24),
     StringHeader(19, StrtabOffset(es), StringOffset(GlobalNames(es), |GlobalNames(es)|)),
     StringHeader(9, ShstrtabOffset(es), SectionNameOffset(es, |es|))]
  }

  function Headers(es: entries): seq<Shdr> {
    [Shdr(0, SHT_NULL, 0, 0, 0, 0, 0, 0, 0, 0)] + FnHeaders(es, |es|) + TableHeaders(es)
  }

  function SymFields(ss: seq<Sym>): seq<fields> { seq(|ss|, k requires 0 <= k < |ss| => ss[k].Fields()) }

  function ShdrFields(hs: seq<Shdr>): seq<fields> { seq(|hs|, k requires 0 <= k < |hs| => hs[k].Fields()) }

  // ----- the whole file

  function Ehdr(es: entries): fields { EhdrFields(HeadersOffset(es), SectionTotal(es), SectionTotal(es) - 1) }

  function NameTable(es: entries): seq<byte> { BaseNames() + Gather(NamePieces(es), |es|) }

  function StringTable(ns: seq<name>): seq<byte> { [0] + Gather(StringPieces(ns), |ns|) }

  function Image(es: entries): seq<byte> {
    Stored(Ehdr(es)) + Gather(Blob(es), |es|) + Records(Relas(es, |es|)) + NameTable(es) + StringTable(GlobalNames(es))
    + Records(SymFields(Syms(es))) + Records(ShdrFields(Headers(es)))
  }

  // ----- where the parts are

  lemma {:induction false} RelasLength(es: entries, n: nat)
    requires n <= |es|
    ensures |Relas(es, n)| == RelocCount(es, n)
    ensures forall i :: 0 <= i < |Relas(es, n)| ==> |Stored(Relas(es, n)[i])| == 24
  {
    if n > 0 {
      RelasLength(es, n - 1);
      var e := es[n - 1];
      forall k | 0 <= k < |e.relocs| ensures |Stored(RelaOf(es, e.relocs[k]).Fields())| == 24 {
        RelaWidth(RelaOf(es, e.relocs[k]));
      }
    }
  }

  lemma {:induction false} LocalSymsLength(es: entries, n: nat)
    requires n <= |es|
    ensures |LocalSyms(es, n)| == |LocalNames(es, n)|
  {
    if n > 0 { LocalSymsLength(es, n - 1); }
  }

  lemma {:induction false} FnHeadersLength(es: entries, n: nat)
    requires n <= |es|
    ensures |FnHeaders(es, n)| == SectionCount(es, n)
  {
    hide HeadersOf;
    if n > 0 { FnHeadersLength(es, n - 1); }
  }

  lemma TableLengths(es: entries)
    ensures |Syms(es)| == SymbolTotal(es) && |Headers(es)| == SectionTotal(es)
    ensures |Records(SymFields(Syms(es)))| == 24 * SymbolTotal(es)
    ensures |Records(ShdrFields(Headers(es)))| == 64 * SectionTotal(es)
    ensures |Records(Relas(es, |es|))| == 24 * RelocCount(es, |es|)
    ensures |Stored(Ehdr(es))| == 64 && |BaseNames()| == 27
  {
    hide Stored;
    LocalSymsLength(es, |es|);
    FnHeadersLength(es, |es|);
    RelasLength(es, |es|);
    RecordsLength(Relas(es, |es|), 24);
    forall k | 0 <= k < |Syms(es)| ensures |Stored(SymFields(Syms(es))[k])| == 24 { SymWidth(Syms(es)[k]); }
    RecordsLength(SymFields(Syms(es)), 24);
    forall k | 0 <= k < |Headers(es)| ensures |Stored(ShdrFields(Headers(es))[k])| == 64 { ShdrWidth(Headers(es)[k]); }
    RecordsLength(ShdrFields(Headers(es)), 64);
    EhdrWidth(HeadersOffset(es), SectionTotal(es), SectionTotal(es) - 1);
  }

  lemma PartLengths(es: entries)
    ensures |Stored(Ehdr(es))| == 64
    ensures 64 + |Gather(Blob(es), |es|)| == BlobOffset(es, |es|)
    ensures BlobOffset(es, |es|) + |Records(Relas(es, |es|))| == ShstrtabOffset(es)
    ensures ShstrtabOffset(es) + |NameTable(es)| == StrtabOffset(es)
    ensures StrtabOffset(es) + |StringTable(GlobalNames(es))| == SymtabOffset(es)
    ensures SymtabOffset(es) + |Records(SymFields(Syms(es)))| == HeadersOffset(es)
    ensures |Records(ShdrFields(Headers(es)))| == 64 * SectionTotal(es)
  {
    TableLengths(es);
    hide Stored, Gather, Records, Syms, Headers, Ehdr, GlobalNames, SymbolNames, RelocCount, SectionCount, Relas, SymFields,
         ShdrFields, Blob, NamePieces, StringPieces, BaseNames;
  }

  /** Each part of the file is where the offsets say, and nothing is left over. */
  lemma Parts(es: entries)
    ensures var f := Image(es);
      && |f| == HeadersOffset(es) + 64 * SectionTotal(es)
      && 64 <= BlobOffset(es, |es|) <= ShstrtabOffset(es) <= StrtabOffset(es) <= SymtabOffset(es) <= HeadersOffset(es)
      && f[..64] == Stored(Ehdr(es))
      && f[64..BlobOffset(es, |es|)] == Gather(Blob(es), |es|)
      && f[BlobOffset(es, |es|)..ShstrtabOffset(es)] == Records(Relas(es, |es|))
      && f[ShstrtabOffset(es)..StrtabOffset(es)] == NameTable(es)
      && f[StrtabOffset(es)..SymtabOffset(es)] == StringTable(GlobalNames(es))
      && f[SymtabOffset(es)..HeadersOffset(es)] == Records(SymFields(Syms(es)))
      && f[HeadersOffset(es)..] == Records(ShdrFields(Headers(es)))
  {
    PartLengths(es);
    hide Stored, Gather, Records, Syms, Headers, Ehdr, GlobalNames, SymbolTotal, RelocCount, SectionTotal, Relas, SymFields,
         ShdrFields, Blob, NameTable, StringTable, BlobOffset, ShstrtabOffset, StrtabOffset, SymtabOffset, HeadersOffset;
    Seven(Stored(Ehdr(es)), Gather(Blob(es), |es|), Records(Relas(es, |es|)), NameTable(es), StringTable(GlobalNames(es)),
      Records(SymFields(Syms(es))), Records(ShdrFields(Headers(es))));
  }

  lemma Seven(a: seq<byte>, b: seq<byte>, c: seq<byte>, d: seq<byte>, e: seq<byte>, g: seq<byte>, h: seq<byte>)
    ensures var f := a + b + c + d + e + g + h;
      var i := |a|; var j := i + |b|; var k := j + |c|; var l := k + |d|; var m := l + |e|; var n := m + |g|;
      && f[..i] == a && f[i..j] == b && f[j..k] == c && f[k..l] == d && f[l..m] == e && f[m..n] == g && f[n..] == h
  {
  }

  // ----- the parts one by one

  ghost predicate PartIs(f: seq<byte>, a: int, b: int, s: seq<byte>) { 0 <= a <= b <= |f| && f[a..b] == s }

  lemma FileSize(es: entries)
    ensures |Image(es)| == HeadersOffset(es) + 64 * SectionTotal(es)
  {
    Parts(es);
    hide *;
  }

  lemma EhdrPart(es: entries)
    ensures PartIs(Image(es), 0, 64, Stored(Ehdr(es)))
  {
    Parts(es);
    hide Image, Stored, Ehdr, HeadersOffset, SectionTotal;
    assert Image(es)[0..64] == Image(es)[..64];
  }

  lemma BlobPart(es: entries)
    ensures PartIs(Image(es), 64, BlobOffset(es, |es|), Gather(Blob(es), |es|))
  {
    Parts(es);
    hide Image, BlobOffset, Gather, Blob, HeadersOffset, SectionTotal;
  }

  lemma RelaPart(es: entries)
    ensures PartIs(Image(es), BlobOffset(es, |es|), ShstrtabOffset(es), Records(Relas(es, |es|)))
  {
    Parts(es);
    hide Image, BlobOffset, ShstrtabOffset, Records, Relas, HeadersOffset, SectionTotal;
  }

  lemma NamePart(es: entries)
    ensures PartIs(Image(es), ShstrtabOffset(es), StrtabOffset(es), NameTable(es))
  {
    Parts(es);
    hide Image, StrtabOffset, ShstrtabOffset, NameTable, HeadersOffset, SectionTotal;
  }

  lemma StringPart(es: entries)
    ensures PartIs(Image(es), StrtabOffset(es), SymtabOffset(es), StringTable(GlobalNames(es)))
  {
    Parts(es);
    hide Image, StrtabOffset, SymtabOffset, StringTable, GlobalNames, HeadersOffset, SectionTotal;
  }

  lemma SymbolPart(es: entries)
    ensures PartIs(Image(es), SymtabOffset(es), HeadersOffset(es), Records(SymFields(Syms(es))))
  {
    Parts(es);
    hide Image, SymtabOffset, Records, SymFields, Syms, HeadersOffset, SectionTotal;
  }

  lemma HeaderPart(es: entries)
    ensures PartIs(Image(es), HeadersOffset(es), |Image(es)|, Records(ShdrFields(Headers(es))))
  {
    Parts(es);
    hide Image, Records, ShdrFields, Headers, HeadersOffset, SectionTotal;
    assert Image(es)[HeadersOffset(es)..] == Image(es)[HeadersOffset(es)..|Image(es)|];
  }
}
