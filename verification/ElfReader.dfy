/** Reading an object file back by headers, names, symbols and relocations. */
module ElfReader {
  import opened ElfFormat
  import opened ElfImage

  // ----- the reader

  /** A relocatable AArch64 file of 64-bit class in little-endian encoding, of the only version there is. */
  ghost predicate IsObject(f: seq<byte>) {
    IdentValues(f) && FieldAt(f, 16, 2) == 1 && FieldAt(f, 18, 2) == 183 && FieldAt(f, 20, 4) == 1
  }

  function HeaderTable(f: seq<byte>): int { FieldAt(f, 40, 8) }

  function HeaderSize(f: seq<byte>): int { FieldAt(f, 58, 2) }

  function HeaderCount(f: seq<byte>): int { FieldAt(f, 60, 2) }

  function Header(f: seq<byte>, i: int): Shdr { ReadShdr(f, HeaderTable(f) + HeaderSize(f) * i) }

  function Contents(f: seq<byte>, h: Shdr): seq<byte> {
    if 0 <= h.offset <= h.offset + h.size <= |f| then f[h.offset..h.offset + h.size] else []
  }

  /** The bytes from k on up to the next zero. */
  function CString(s: seq<byte>, k: int): seq<byte>
    decreases |s| - k
  {
    if k < 0 || k >= |s| || s[k] == 0 then [] else [s[k]] + CString(s, k + 1)
  }

  function SectionName(f: seq<byte>, i: int): seq<byte> {
    CString(Contents(f, Header(f, FieldAt(f, 62, 2))), Header(f, i).nm)
  }

  function Symbol(f: seq<byte>, symtab: Shdr, k: int): Sym { ReadSym(f, symtab.offset + 24 * k) }

  /** Section symbols go by the name of their section, others by their own. */
  function SymbolName(f: seq<byte>, symtab: Shdr, k: int): seq<byte> {
    var s := Symbol(f, symtab, k);
    if s.info % 16 == STT_SECTION then SectionName(f, s.shndx) else CString(Contents(f, Header(f, symtab.link)), s.nm)
  }

  function Signed(v: int): int { if 2 * v >= PowerOf256(8) then v - PowerOf256(8) else v }

  datatype ReadReloc = ReadReloc(nm: seq<byte>, offset: int, typ: int, addend: int)

  function RelocAt(f: seq<byte>, h: Shdr, k: int): ReadReloc {
    var r := ReadRela(f, h.offset + 24 * k);
    ReadReloc(SymbolName(f, Header(f, h.link), r.sym), r.offset, r.typ, Signed(r.addend))
  }

  // ----- what fits into a file

  ghost predicate RelocFits(r: Reloc) {
    0 <= r.offset < 0x8000_0000 && 0 <= r.typ < 0x8000_0000 && -0x8000_0000 <= r.addend < 0x8000_0000
  }

  ghost predicate EntryFits(e: FnEntry) {
    && 0 <= e.textAddr < PowerOf256(8) && 0 <= e.dataAddr < PowerOf256(8)
    && forall k :: 0 <= k < |e.relocs| ==> RelocFits(e.relocs[k])
  }

  /** Sizes below 4 GiB, fewer sections than the reserved indices begin at, machine-size numbers. */
  ghost predicate Fits(es: entries) {
    && HeadersOffset(es) + 64 * SectionTotal(es) < 0x1_0000_0000
    && SectionTotal(es) < 0xff00
    && forall i :: 0 <= i < |es| ==> EntryFits(es[i])
  }

  lemma Powers()
    ensures PowerOf256(1) == 0x100 && PowerOf256(2) == 0x1_0000 && PowerOf256(4) == 0x1_0000_0000
    ensures PowerOf256(8) == 0x1_0000_0000_0000_0000
  {
    assert PowerOf256(3) == 256 * PowerOf256(2) && PowerOf256(2) == 256 * PowerOf256(1);
    assert PowerOf256(7) == 256 * PowerOf256(6) && PowerOf256(6) == 256 * PowerOf256(5) && PowerOf256(5) == 256 * PowerOf256(4);
  }

  // ----- prefixes

  lemma {:induction false} GatherGrows(f: int -> seq<byte>, n: nat, i: nat)
    requires i <= n
    ensures |Gather(f, i)| <= |Gather(f, n)|
  {
    if i < n { GatherGrows(f, n - 1, i); }
  }

  lemma {:induction false} CountsGrow(es: entries, n: nat, i: nat)
    requires i <= n <= |es|
    ensures SectionCount(es, i) <= SectionCount(es, n) && RelocCount(es, i) <= RelocCount(es, n)
    ensures i < n ==> SectionCount(es, i) + Sections(es[i]) <= SectionCount(es, n)
    ensures i < n ==> RelocCount(es, i) + |es[i].relocs| <= RelocCount(es, n)
  {
    if i < n - 1 { CountsGrow(es, n - 1, i); }
  }

  lemma {:induction false} FnHeaderAt(es: entries, n: nat, i: nat, k: nat)
    requires i < n <= |es| && k < Sections(es[i])
    ensures SectionCount(es, i) + k < |FnHeaders(es, n)|
    ensures FnHeaders(es, n)[SectionCount(es, i) + k] == HeadersOf(es, i)[k]
  {
    hide HeadersOf;
    FnHeadersLength(es, n - 1);
    if i < n - 1 { FnHeaderAt(es, n - 1, i, k); }
  }

  lemma {:induction false} RelaAt(es: entries, n: nat, i: nat, k: nat)
    requires i < n <= |es| && k < |es[i].relocs|
    ensures RelocCount(es, i) + k < |Relas(es, n)|
    ensures Relas(es, n)[RelocCount(es, i) + k] == RelaOf(es, es[i].relocs[k]).Fields()
  {
    hide RelaOf;
    RelasLength(es, n - 1);
    if i < n - 1 { RelaAt(es, n - 1, i, k); }
  }

  // ----- every record fits its fields

  /** Every table and offset is at most the size of the file. */
  lemma SizeBounds(es: entries)
    ensures var size := HeadersOffset(es) + 64 * SectionTotal(es);
      && BlobOffset(es, |es|) <= ShstrtabOffset(es) <= StrtabOffset(es) <= SymtabOffset(es) <= HeadersOffset(es) <= size
      && SectionNameOffset(es, |es|) <= size && StringOffset(GlobalNames(es), |GlobalNames(es)|) <= size
      && 24 * SymbolTotal(es) <= size && 64 * SectionTotal(es) <= size
      && 24 * RelocCount(es, |es|) <= size
  {
    Parts(es);
    hide Image, Stored, Records, GlobalNames, SymbolTotal, Gather, BlobOffset, RelocCount, SectionTotal, StringOffset,
         SectionNameOffset, Ehdr, Blob, Relas, NameTable, StringTable, SymFields, Syms, ShdrFields, Headers;
  }

  lemma BlobSteps(es: entries, i: nat)
    requires i < |es|
    ensures 64 <= BlobOffset(es, i)
    ensures BlobOffset(es, i) + |es[i].text| + |es[i].data| == BlobOffset(es, i + 1) <= BlobOffset(es, |es|)
  {
    GatherGrows(Blob(es), |es|, i + 1);
  }

  lemma RelaSteps(es: entries, i: nat)
    requires i < |es|
    ensures BlobOffset(es, |es|) <= RelaOffset(es, i)
    ensures RelaOffset(es, i) + 24 * |es[i].relocs| == RelaOffset(es, i + 1) <= ShstrtabOffset(es)
  {
    CountsGrow(es, |es|, i + 1);
    hide BlobOffset;
  }

  lemma NameSteps(es: entries, i: nat)
    requires i < |es|
    ensures SectionNameOffset(es, i) + |SectionNames(es[i])| == SectionNameOffset(es, i + 1) <= SectionNameOffset(es, |es|)
  {
    GatherGrows(NamePieces(es), |es|, i + 1);
    hide SectionNames;
  }

  lemma SectionSteps(es: entries, i: nat)
    requires i < |es|
    ensures TextIndex(es, i) + Sections(es[i]) == TextIndex(es, i + 1) <= SectionTotal(es) - 3
  {
    CountsGrow(es, |es|, i + 1);
  }

  /** The lengths of an entry's section names. */
  lemma SectionNameLengths(e: FnEntry)
    ensures |SectionNames(e)| == |e.nm| + 7 + (if e.relocs != [] then |e.nm| + 12 else 0) + (if e.data != [] then |e.nm| + 9 else 0)
  {
  }

  ghost predicate Small(v: int) { 0 <= v < 0x1_0000_0000 }

  lemma ShdrFits(h: Shdr)
    requires Small(h.nm) && Small(h.typ) && Small(h.flags) && 0 <= h.addr < PowerOf256(8) && Small(h.offset) && Small(h.size)
    requires Small(h.link) && Small(h.info) && Small(h.align) && Small(h.entsize)
    ensures FieldsFit(h.Fields())
  {
    Powers();
    hide PowerOf256;
  }

  lemma SymFits(s: Sym)
    requires Small(s.nm) && 0 <= s.info < 0x100 && 0 <= s.other < 0x100 && 0 <= s.shndx < 0x1_0000 && Small(s.value) && Small(s.size)
    ensures FieldsFit(s.Fields())
  {
    Powers();
    hide PowerOf256;
  }

  lemma RelaFits(r: ElfFormat.Rela)
    requires Small(r.offset) && Small(r.sym) && Small(r.typ) && 0 <= r.addend < PowerOf256(8)
    ensures FieldsFit(r.Fields())
  {
    Powers();
    hide PowerOf256;
  }

  lemma AddressesFit(es: entries, i: nat)
    requires Fits(es) && i < |es|
    ensures HeadersOffset(es) + 64 * SectionTotal(es) < 0x1_0000_0000 && SectionTotal(es) < 0xff00
    ensures 0 <= es[i].textAddr < PowerOf256(8) && 0 <= es[i].dataAddr < PowerOf256(8)
    ensures PowerOf256(8) > 0
  {
    hide HeadersOffset, SectionTotal, PowerOf256;
  }

  /** Where an entry's parts are, within a file of the greatest size. */
  lemma EntryPlaces(es: entries, i: nat)
    requires Fits(es) && i < |es|
    ensures BlobOffset(es, i) + |es[i].text| + |es[i].data| < 0x1_0000_0000
    ensures RelaOffset(es, i) + 24 * |es[i].relocs| < 0x1_0000_0000
    ensures SectionNameOffset(es, i) + |SectionNames(es[i])| < 0x1_0000_0000
    ensures TextIndex(es, i) + Sections(es[i]) <= SectionTotal(es) - 3 < 0xff00
  {
    FewSections(es);
    SizeBounds(es);
    BlobSteps(es, i);
    RelaSteps(es, i);
    NameSteps(es, i);
    SectionSteps(es, i);
    hide *;
  }

  lemma TextHeaderFits(es: entries, i: nat)
    requires Fits(es) && i < |es|
    ensures FieldsFit(TextHeader(es, i).Fields())
  {
    hide Fits, PowerOf256, BlobOffset, SectionNameOffset, Shdr.Fields, FieldsFit, RelaOffset, SectionNames, TextIndex, SectionTotal;
    AddressesFit(es, i);
    EntryPlaces(es, i);
    ShdrFits(TextHeader(es, i));
  }

  lemma RelaHeaderFits(es: entries, i: nat)
    requires Fits(es) && i < |es| && es[i].relocs != []
    ensures FieldsFit(RelaHeader(es, i).Fields())
  {
    hide Fits, PowerOf256, BlobOffset, SectionNameOffset, Shdr.Fields, FieldsFit, RelaOffset, SectionNames, TextIndex, SectionTotal;
    AddressesFit(es, i);
    EntryPlaces(es, i);
    SectionNameLengths(es[i]);
    ShdrFits(RelaHeader(es, i));
  }

  lemma RodataHeaderFits(es: entries, i: nat)
    requires Fits(es) && i < |es| && es[i].data != []
    ensures FieldsFit(RodataHeader(es, i).Fields())
  {
    hide Fits, PowerOf256, BlobOffset, SectionNameOffset, Shdr.Fields, FieldsFit, RelaOffset, SectionNames, TextIndex, SectionTotal;
    AddressesFit(es, i);
    EntryPlaces(es, i);
    SectionNameLengths(es[i]);
    ShdrFits(RodataHeader(es, i));
  }

  /** Where the tables are. */
  lemma TablePlaces(es: entries)
    requires Fits(es)
    ensures Small(SymtabOffset(es)) && Small(SymbolTotal(es) * 24) && Small(1 + |LocalSyms(es, |es|)|)
    ensures Small(StrtabOffset(es)) && Small(StringOffset(GlobalNames(es), |GlobalNames(es)|))
    ensures Small(ShstrtabOffset(es)) && Small(SectionNameOffset(es, |es|)) && 4 <= SectionTotal(es) < 0xff00
    ensures 1 + |LocalSyms(es, |es|)| <= SymbolTotal(es)
  {
    FewSections(es);
    SizeBounds(es);
    LocalSymsLength(es, |es|);
    assert |LocalSyms(es, |es|)| < SymbolTotal(es);
    hide *;
  }

  lemma TableHeadersFit(es: entries, k: nat)
    requires Fits(es) && k < 3
    ensures FieldsFit(TableHeaders(es)[k].Fields())
  {
    hide Fits, SectionNameOffset, SectionTotal, GlobalNames, StringOffset, SymbolTotal, ShstrtabOffset, StrtabOffset,
         SymtabOffset, LocalSyms, Shdr.Fields, FieldsFit;
    TablePlaces(es);
    TableFits(TableHeaders(es)[k]);
  }

  lemma TableFits(h: Shdr)
    requires Small(h.nm) && Small(h.typ) && h.flags == 0 && h.addr == 0 && Small(h.offset) && Small(h.size)
    requires Small(h.link) && Small(h.info) && Small(h.align) && Small(h.entsize)
    ensures FieldsFit(h.Fields())
  {
    Powers();
    hide PowerOf256, FieldsFit, Shdr.Fields;
    ShdrFits(h);
  }

  // ----- headers read back

  /** A record standing at a within a part of the file. */
  lemma HoldsIntro(f: seq<byte>, o: nat, e: nat, part: seq<byte>, a: nat, fs: fields, w: nat)
    requires PartIs(f, o, e, part) && Width(fs) == w && a + w <= |part| && part[a..a + w] == Stored(fs) && FieldsFit(fs)
    ensures Holds(f, o + a, fs)
  {
    hide Stored, FieldsFit, Width;
    Inside(f, o, e, part, a, w);
  }

  lemma Inside(f: seq<byte>, o: nat, e: nat, part: seq<byte>, a: nat, w: nat)
    requires o <= e <= |f| && f[o..e] == part && a + w <= |part|
    ensures o + a + w <= |f| && f[o + a..o + a + w] == part[a..a + w]
  {
    var x, y := f[o + a..o + a + w], part[a..a + w];
    forall k | 0 <= k < w ensures x[k] == y[k] {
      assert y[k] == part[a + k] == f[o..e][a + k];
    }
  }

  /** The file header is that of an object file, and says where the section headers are. */
  lemma FileHeader(es: entries)
    requires Fits(es)
    ensures var f := Image(es);
      && IsObject(f) && HeaderValues(f, HeadersOffset(es), SectionTotal(es), SectionTotal(es) - 1)
      && HeaderTable(f) == HeadersOffset(es) && HeaderSize(f) == 64 && HeaderCount(f) == SectionTotal(es)
      && FieldAt(f, 62, 2) == SectionTotal(es) - 1
  {
    hide Fits, Image, Stored, FieldsFit, FieldAt, IdentValues, Width, HeadersOffset, SectionTotal, EhdrFields, Holds, PartIs;
    EhdrPart(es);
    EhdrWidth(HeadersOffset(es), SectionTotal(es), SectionTotal(es) - 1);
    FewSections(es);
    EhdrFits(HeadersOffset(es), SectionTotal(es));
    assert Stored(Ehdr(es))[0..64] == Stored(Ehdr(es));
    HoldsIntro(Image(es), 0, 64, Stored(Ehdr(es)), 0, Ehdr(es), 64);
    EhdrReadsBack(HeadersOffset(es), SectionTotal(es), SectionTotal(es) - 1, Image(es));
  }

  lemma FewSections(es: entries)
    requires Fits(es)
    ensures 4 <= SectionTotal(es) < 0xff00 && 0 <= HeadersOffset(es) < 0x1_0000_0000
    ensures HeadersOffset(es) + 64 * SectionTotal(es) < 0x1_0000_0000
  {
    hide HeadersOffset;
  }

  lemma EhdrFits(shoff: int, shnum: int)
    requires Small(shoff) && 4 <= shnum < 0xff00
    ensures FieldsFit(EhdrFields(shoff, shnum, shnum - 1))
  {
    Powers();
    hide PowerOf256;
  }

  lemma ShdrRecord(hs: seq<Shdr>, k: nat)
    requires k < |hs|
    ensures 64 * k + 64 <= |Records(ShdrFields(hs))|
    ensures Records(ShdrFields(hs))[64 * k..64 * k + 64] == Stored(hs[k].Fields())
  {
    hide Stored, Shdr.Fields;
    var rs := ShdrFields(hs);
    forall j | 0 <= j < |rs| ensures |Stored(rs[j])| == 64 { ShdrWidth(hs[j]); }
    RecordAt(rs, 64, k);
  }

  /** The file holds every header in its place. */
  lemma HeaderHeld(es: entries, k: nat)
    requires Fits(es) && k < |Headers(es)| && FieldsFit(Headers(es)[k].Fields())
    ensures Header(Image(es), k) == Headers(es)[k]
  {
    hide Fits, Image, Headers, Shdr.Fields, Stored, ReadShdr, FieldsFit, FieldAt, Width, HeadersOffset, Holds, Records, SectionTotal,
         HeaderTable, HeaderSize, HeaderValues, IsObject, PartIs, ShdrFields;
    var h := Headers(es)[k];
    FileHeader(es);
    HeaderPart(es);
    ShdrRecord(Headers(es), k);
    ShdrWidth(h);
    HoldsIntro(Image(es), HeadersOffset(es), |Image(es)|, Records(ShdrFields(Headers(es))), 64 * k, h.Fields(), 64);
    ShdrReadsBack(h, Image(es), HeadersOffset(es) + 64 * k);
  }

  lemma SymRecord(ss: seq<Sym>, k: nat)
    requires k < |ss|
    ensures 24 * k + 24 <= |Records(SymFields(ss))|
    ensures Records(SymFields(ss))[24 * k..24 * k + 24] == Stored(ss[k].Fields())
  {
    hide Stored, Sym.Fields;
    var rs := SymFields(ss);
    forall j | 0 <= j < |rs| ensures |Stored(rs[j])| == 24 { SymWidth(ss[j]); }
    RecordAt(rs, 24, k);
  }

  /** The file holds every symbol in its place. */
  lemma SymbolHeld(es: entries, symtab: Shdr, k: nat)
    requires k < |Syms(es)| && FieldsFit(Syms(es)[k].Fields()) && symtab.offset == SymtabOffset(es)
    ensures Symbol(Image(es), symtab, k) == Syms(es)[k]
  {
    hide Image, Syms, Sym.Fields, Stored, ReadSym, FieldsFit, FieldAt, Width, SymtabOffset, HeadersOffset, Holds, Records, PartIs,
         SymFields;
    var s := Syms(es)[k];
    SymbolPart(es);
    SymRecord(Syms(es), k);
    SymWidth(s);
    HoldsIntro(Image(es), SymtabOffset(es), HeadersOffset(es), Records(SymFields(Syms(es))), 24 * k, s.Fields(), 24);
    SymReadsBack(s, Image(es), SymtabOffset(es) + 24 * k);
  }

  lemma RelaRecord(es: entries, i: nat, k: nat)
    requires i < |es| && k < |es[i].relocs|
    ensures var rs := Records(Relas(es, |es|)); var a := 24 * RelocCount(es, i) + 24 * k;
      a + 24 <= |rs| && rs[a..a + 24] == Stored(RelaOf(es, es[i].relocs[k]).Fields())
  {
    hide RelaOf, ElfFormat.Rela.Fields, Stored, Records, Relas;
    RelasLength(es, |es|);
    RelaAt(es, |es|, i, k);
    RecordAt(Relas(es, |es|), 24, RelocCount(es, i) + k);
  }

  /** The file holds every relocation in its place. */
  lemma RelaHeld(es: entries, i: nat, k: nat)
    requires i < |es| && k < |es[i].relocs| && FieldsFit(RelaOf(es, es[i].relocs[k]).Fields())
    ensures ReadRela(Image(es), RelaOffset(es, i) + 24 * k) == RelaOf(es, es[i].relocs[k])
  {
    hide Image, RelaOf, ElfFormat.Rela.Fields, Stored, ReadRela, FieldsFit, FieldAt, Width, BlobOffset, Holds, Records, Relas, PartIs,
         ShstrtabOffset, RelocCount;
    var r, a := RelaOf(es, es[i].relocs[k]), 24 * RelocCount(es, i) + 24 * k;
    RelaPart(es);
    RelaRecord(es, i, k);
    RelaWidth(r);
    HoldsIntro(Image(es), BlobOffset(es, |es|), ShstrtabOffset(es), Records(Relas(es, |es|)), a, r.Fields(), 24);
    RelaReadsBack(r, Image(es), BlobOffset(es, |es|) + a);
  }

  // ----- names

  /** A name with its final zero, wherever it stands, reads back. */
  lemma {:induction false} CStringReads(s: seq<byte>, k: nat, nm: name)
    requires k + |nm| + 1 <= |s| && s[k..k + |nm| + 1] == nm + [0]
    ensures CString(s, k) == nm
    decreases |nm|
  {
    assert s[k..k + |nm| + 1][0] == s[k];
    if nm != [] {
      var rest := nm[1..];
      assert s[k] == nm[0] && nm[0] != 0 by { assert nm[0] in nm; }
      assert forall b :: b in rest ==> b in nm;
      assert s[k + 1..k + 1 + |rest| + 1] == s[k..k + |nm| + 1][1..] == rest + [0];
      CStringReads(s, k + 1, rest);
    }
  }

  lemma Shifted(pre: seq<byte>, g: seq<byte>, a: nat, w: nat)
    requires a + w <= |g|
    ensures (pre + g)[|pre| + a..|pre| + a + w] == g[a..a + w]
  {
  }

  lemma StringPiece(ns: seq<name>, k: nat)
    requires k < |ns|
    ensures var g, o := Gather(StringPieces(ns), |ns|), |Gather(StringPieces(ns), k)|;
      o + (|ns[k]| + 1) <= |g| && g[o..o + (|ns[k]| + 1)] == ns[k] + [0]
  {
    var f := StringPieces(ns);
    assert f(k) == ns[k] + [0];
    hide Gather, StringPieces;
    GatherSlice(f, |ns|, k);
  }

  lemma StringAt(ns: seq<name>, k: nat)
    requires k < |ns|
    ensures CString(StringTable(ns), StringOffset(ns, k)) == ns[k]
    ensures StringOffset(ns, k) < StringOffset(ns, |ns|)
  {
    hide Gather, StringPieces, CString;
    StringPiece(ns, k);
    var g, o := Gather(StringPieces(ns), |ns|), |Gather(StringPieces(ns), k)|;
    Shifted([0], g, o, |ns[k]| + 1);
    CStringReads([0] + g, 1 + o, ns[k]);
  }

  /** The names of an entry's sections stand in the table from o on. */
  ghost predicate NamesAt(t: seq<byte>, o: int, e: FnEntry) {
    var l := |e.nm| + 7;
    && CString(t, o) == TextName(e.nm)
    && (e.relocs != [] ==> CString(t, o + l) == RelaName(e.nm))
    && (e.data != [] ==> CString(t, o + l + (if e.relocs != [] then |e.nm| + 12 else 0)) == RodataName(e.nm))
  }

  lemma SectionNamesAt(es: entries, i: nat)
    requires i < |es|
    ensures NamesAt(NameTable(es), SectionNameOffset(es, i), es[i])
  {
    var f, e := NamePieces(es), es[i];
    var g, o, s := Gather(f, |es|), |Gather(f, i)|, SectionNames(e);
    BaseSize();
    assert f(i) == s;
    GatherSlice(f, |es|, i);
    hide Gather, BaseNames, NamePieces, SectionNames, NamesAt;
    Shifted(BaseNames(), g, o, |s|);
    NamesWithin(BaseNames() + g, 27 + o, e);
  }

  lemma BaseSize()
    ensures |BaseNames()| == 27
  {
  }

  /** The names of the tables' own sections stand at the beginning of the name table. */
  lemma BaseStrings(t: seq<byte>)
    requires |t| >= 27 && t[..27] == BaseNames()
    ensures CString(t, 1) == SYMTAB_NAME && CString(t, 9) == SHSTRTAB_NAME && CString(t, 19) == STRTAB_NAME
  {
    var b := BaseNames();
    assert b[1..9] == SYMTAB_NAME + [0] && t[1..9] == t[..27][1..9];
    assert b[9..19] == SHSTRTAB_NAME + [0] && t[9..19] == t[..27][9..19];
    assert b[19..27] == STRTAB_NAME + [0] && t[19..27] == t[..27][19..27];
    CStringReads(t, 1, SYMTAB_NAME);
    CStringReads(t, 9, SHSTRTAB_NAME);
    CStringReads(t, 19, STRTAB_NAME);
  }

  lemma NamesWithin(t: seq<byte>, o: nat, e: FnEntry)
    requires o + |SectionNames(e)| <= |t| && t[o..o + |SectionNames(e)|] == SectionNames(e)
    ensures NamesAt(t, o, e)
  {
    NamesFrom(t, o, SectionNames(e), TextName(e.nm), RelaName(e.nm), RodataName(e.nm), e.relocs != [], e.data != []);
  }

  lemma NamesFrom(t: seq<byte>, o: nat, s: seq<byte>, n1: name, n2: name, n3: name, second: bool, third: bool)
    requires s == n1 + [0] + (if second then n2 + [0] else []) + (if third then n3 + [0] else [])
    requires o + |s| <= |t| && t[o..o + |s|] == s
    ensures CString(t, o) == n1
    ensures second ==> CString(t, o + |n1| + 1) == n2
    ensures third ==> CString(t, o + |n1| + 1 + (if second then |n2| + 1 else 0)) == n3
  {
    hide CString;
    var p1 := n1 + [0];
    var p2, p3 := if second then n2 + [0] else [], if third then n3 + [0] else [];
    assert s == [] + p1 + (p2 + p3);
    NameWithin(t, o, [], n1, p2 + p3);
    if second { NameWithin(t, o, p1, n2, p3); }
    if third {
      assert s == (p1 + p2) + (n3 + [0]) + [];
      NameWithin(t, o, p1 + p2, n3, []);
    }
  }

  lemma NameWithin(t: seq<byte>, o: nat, a: seq<byte>, nm: name, c: seq<byte>)
    requires var s := a + (nm + [0]) + c; o + |s| <= |t| && t[o..o + |s|] == s
    ensures CString(t, o + |a|) == nm
  {
    hide CString;
    var s := a + (nm + [0]) + c;
    Middle(a, nm + [0], c);
    Inside(t, o, o + |s|, s, |a|, |nm| + 1);
    CStringReads(t, o + |a|, nm);
  }

  lemma Middle(a: seq<byte>, b: seq<byte>, c: seq<byte>)
    ensures (a + b + c)[|a|..|a| + |b|] == b
  {
  }

  // ----- sections read back

  lemma HeaderPlaces(es: entries, i: nat, k: nat)
    requires i < |es| && k < Sections(es[i])
    ensures TextIndex(es, i) + k < |Headers(es)| && Headers(es)[TextIndex(es, i) + k] == HeadersOf(es, i)[k]
  {
    hide HeadersOf, TableHeaders;
    FnHeaderAt(es, |es|, i, k);
  }

  lemma TableHeaderPlaces(es: entries, k: nat, j: nat)
    requires k < 3 && j == SectionTotal(es) - 3 + k
    ensures j < |Headers(es)| && Headers(es)[j] == TableHeaders(es)[k]
  {
    FnHeadersLength(es, |es|);
    hide FnHeaders, SymtabOffset, StrtabOffset, ShstrtabOffset, StringOffset, SectionNameOffset, SymbolTotal, LocalSyms, GlobalNames;
  }

  lemma TextHeaderRead(es: entries, i: nat)
    requires Fits(es) && i < |es|
    ensures Header(Image(es), TextIndex(es, i)) == TextHeader(es, i)
  {
    hide Fits, Image, Headers, Header, TextHeader, RelaHeader, RodataHeader, TextIndex, FieldsFit, Shdr.Fields;
    HeaderPlaces(es, i, 0);
    TextHeaderFits(es, i);
    HeaderHeld(es, TextIndex(es, i));
  }

  lemma RelaHeaderRead(es: entries, i: nat)
    requires Fits(es) && i < |es| && es[i].relocs != []
    ensures Header(Image(es), TextIndex(es, i) + 1) == RelaHeader(es, i)
  {
    hide Fits, Image, Headers, Header, TextHeader, RelaHeader, RodataHeader, TextIndex, FieldsFit, Shdr.Fields;
    HeaderPlaces(es, i, 1);
    RelaHeaderFits(es, i);
    HeaderHeld(es, TextIndex(es, i) + 1);
  }

  lemma RodataHeaderRead(es: entries, i: nat)
    requires Fits(es) && i < |es| && es[i].data != []
    ensures Header(Image(es), RodataIndex(es, i)) == RodataHeader(es, i)
  {
    hide Fits, Image, Headers, Header, TextHeader, RelaHeader, RodataHeader, TextIndex, FieldsFit, Shdr.Fields;
    var k := if es[i].relocs != [] then 2 else 1;
    HeaderPlaces(es, i, k);
    RodataHeaderFits(es, i);
    HeaderHeld(es, TextIndex(es, i) + k);
  }

  lemma TableHeaderAt(es: entries, k: nat, j: nat, h: Shdr)
    requires Fits(es) && k < 3 && j == SectionTotal(es) - 3 + k && h == TableHeaders(es)[k] && FieldsFit(h.Fields())
    ensures Header(Image(es), j) == h
  {
    TableHeaderPlaces(es, k, j);
    hide *;
    HeaderHeld(es, j);
  }

  lemma TableHeaderRead(es: entries, k: nat)
    requires Fits(es) && k < 3
    ensures Header(Image(es), SectionTotal(es) - 3 + k) == TableHeaders(es)[k]
  {
    hide *;
    TableHeadersFit(es, k);
    FewSections(es);
    TableHeaderAt(es, k, SectionTotal(es) - 3 + k, TableHeaders(es)[k]);
  }

  lemma NameTableRead(es: entries)
    requires Fits(es)
    ensures Contents(Image(es), Header(Image(es), FieldAt(Image(es), 62, 2))) == NameTable(es)
  {
    hide Fits, Image, Header, SectionTotal, FieldAt, NameTable, HeaderTable, HeaderCount, HeaderSize, HeaderValues, IsObject, StrtabOffset, ShstrtabOffset, SymtabOffset,
         SectionNameOffset, StringOffset, GlobalNames, SymbolTotal, LocalSyms;
    FileHeader(es);
    TableHeaderRead(es, 2);
    NamePart(es);
    NameTableSize(es);
  }

  lemma NameTableSize(es: entries)
    ensures ShstrtabOffset(es) + SectionNameOffset(es, |es|) == StrtabOffset(es)
    ensures StrtabOffset(es) + StringOffset(GlobalNames(es), |GlobalNames(es)|) == SymtabOffset(es)
  {
    hide ShstrtabOffset, SectionNameOffset, StringOffset, GlobalNames;
  }

  lemma StringTableRead(es: entries)
    requires Fits(es)
    ensures Contents(Image(es), Header(Image(es), SectionTotal(es) - 2)) == StringTable(GlobalNames(es))
  {
    hide Fits, Image, Header, SectionTotal, StringTable, StrtabOffset, ShstrtabOffset, SymtabOffset, SectionNameOffset, StringOffset,
         GlobalNames, SymbolTotal, LocalSyms;
    TableHeaderRead(es, 1);
    StringPart(es);
    NameTableSize(es);
  }

  /** The names of an entry's sections, by the section name table. */
  lemma EntrySectionNames(es: entries, i: nat)
    requires Fits(es) && i < |es|
    ensures var f := Image(es); var t := TextIndex(es, i);
      && SectionName(f, t) == TextName(es[i].nm)
      && (es[i].relocs != [] ==> SectionName(f, t + 1) == RelaName(es[i].nm))
      && (es[i].data != [] ==> SectionName(f, RodataIndex(es, i)) == RodataName(es[i].nm))
  {
    hide Fits, Image, Header, TextIndex, RodataIndex, NameTable, Contents, FieldAt, BlobOffset, SectionNameOffset, RelaOffset,
         SectionTotal, CString, TextName;
    NameTableRead(es);
    SectionNamesAt(es, i);
    TextHeaderRead(es, i);
    if es[i].relocs != [] { RelaHeaderRead(es, i); }
    if es[i].data != [] { RodataHeaderRead(es, i); }
  }

  /** The tables' sections have their names, too. */
  lemma TableSectionNames(es: entries)
    requires Fits(es)
    ensures var f, n := Image(es), SectionTotal(es);
      SectionName(f, n - 3) == SYMTAB_NAME && SectionName(f, n - 2) == STRTAB_NAME && SectionName(f, n - 1) == SHSTRTAB_NAME
  {
    hide *;
    FewSections(es);
    NameTableStarts(es);
    BaseStrings(NameTable(es));
    TableNamePlaces(es);
    NameTableRead(es);
    NamedBy(Image(es), SectionTotal(es) - 3, NameTable(es));
    NamedBy(Image(es), SectionTotal(es) - 2, NameTable(es));
    NamedBy(Image(es), SectionTotal(es) - 1, NameTable(es));
    TableHeaderRead(es, 0);
    TableHeaderRead(es, 1);
    TableHeaderRead(es, 2);
  }

  lemma NamedBy(f: seq<byte>, i: int, t: seq<byte>)
    requires Contents(f, Header(f, FieldAt(f, 62, 2))) == t
    ensures SectionName(f, i) == CString(t, Header(f, i).nm)
  {
  }

  lemma NameTableStarts(es: entries)
    ensures |NameTable(es)| >= 27 && NameTable(es)[..27] == BaseNames()
  {
    BaseSize();
  }

  lemma TableNamePlaces(es: entries)
    ensures TableHeaders(es)[0].nm == 1 && TableHeaders(es)[1].nm == 19 && TableHeaders(es)[2].nm == 9
  {
  }

  lemma BlobPiece(es: entries, i: nat)
    requires i < |es|
    ensures var g, o, s := Gather(Blob(es), |es|), |Gather(Blob(es), i)|, es[i].text + es[i].data;
      o + |s| <= |g| && g[o..o + |s|] == s
  {
    var b := Blob(es);
    assert b(i) == es[i].text + es[i].data;
    hide Gather, Blob;
    GatherSlice(b, |es|, i);
  }

  lemma BlobAt(es: entries, i: nat)
    requires i < |es|
    ensures var f, o, s := Image(es), BlobOffset(es, i), es[i].text + es[i].data; o + |s| <= |f| && f[o..o + |s|] == s
  {
    hide Image, Gather, Blob;
    BlobPart(es);
    BlobPiece(es, i);
    var g, o := Gather(Blob(es), |es|), |Gather(Blob(es), i)|;
    Inside(Image(es), 64, 64 + |g|, g, o, |es[i].text + es[i].data|);
  }

  /** An entry's code and data. */
  lemma EntryContents(es: entries, i: nat)
    requires Fits(es) && i < |es|
    ensures Contents(Image(es), TextHeader(es, i)) == es[i].text
    ensures Contents(Image(es), RodataHeader(es, i)) == es[i].data
  {
    hide Image, SectionNameOffset, BlobOffset, Fits;
    BlobAt(es, i);
    BlobSplit(Image(es), BlobOffset(es, i), es[i].text, es[i].data);
  }

  lemma BlobSplit(f: seq<byte>, o: nat, a: seq<byte>, b: seq<byte>)
    requires o + |a + b| <= |f| && f[o..o + |a + b|] == a + b
    ensures f[o..o + |a|] == a && f[o + |a|..o + |a| + |b|] == b
  {
    var m := |a| + |b|;
    assert f[o..o + m][..|a|] == f[o..o + |a|];
    assert f[o..o + m][|a|..] == f[o + |a|..o + m];
  }

  // ----- symbols read back

  /** A section symbol stands for the section whose name the model gives it. */
  lemma {:induction false} LocalSymbol(es: entries, n: nat, p: nat)
    requires Fits(es) && n <= |es| && p < |LocalNames(es, n)| && |LocalSyms(es, n)| == |LocalNames(es, n)|
    ensures var s := LocalSyms(es, n)[p];
      s == SectionSym(s.shndx) && 0 < s.shndx < 0xff00 && SectionName(Image(es), s.shndx) == LocalNames(es, n)[p]
  {
    hide Fits, Image, SectionName, TextIndex, RodataIndex, SectionTotal, TextName, RodataName, RelaOffset, BlobOffset,
         SectionNameOffset, SectionNames;
    LocalSymsLength(es, n - 1);
    if p < |LocalNames(es, n - 1)| {
      LocalSymbol(es, n - 1, p);
    } else {
      EntrySectionNames(es, n - 1);
      EntryIndices(es, n - 1);
    }
  }

  lemma EntryIndices(es: entries, i: nat)
    requires Fits(es) && i < |es|
    ensures 0 < TextIndex(es, i) < TextIndex(es, i) + Sections(es[i]) < 0xff00 && 0 < RodataIndex(es, i)
    ensures es[i].data != [] ==> RodataIndex(es, i) < TextIndex(es, i) + Sections(es[i])
  {
    EntryPlaces(es, i);
    hide Fits, RelaOffset, BlobOffset, SectionNameOffset, SectionNames, SectionTotal;
  }

  /** The symbols in order: none, sections, names. */
  lemma SymbolPlaces(es: entries, k: nat)
    requires 1 <= k < |Syms(es)|
    ensures var l := |LocalNames(es, |es|)|;
      && |LocalSyms(es, |es|)| == l && |SymbolNames(es)| == |Syms(es)| - 1
      && (if k <= l
          then Syms(es)[k] == LocalSyms(es, |es|)[k - 1] && SymbolNames(es)[k - 1] == LocalNames(es, |es|)[k - 1]
          else k - 1 - l < |GlobalNames(es)| && Syms(es)[k] == GlobalSym(es, k - 1 - l)
               && SymbolNames(es)[k - 1] == GlobalNames(es)[k - 1 - l])
  {
    hide LocalSyms, LocalNames, GlobalNames, GlobalSym;
    LocalSymsLength(es, |es|);
  }

  lemma GlobalSymbolFits(es: entries, k: nat)
    requires Fits(es) && k < |GlobalNames(es)|
    ensures FieldsFit(GlobalSym(es, k).Fields())
  {
    hide Fits, GlobalNames, StringOffset, TextIndex, SectionTotal, FieldsFit, Sym.Fields, BlobOffset, RelaOffset, SectionNameOffset,
         SectionNames, SymbolTotal, LocalSyms, StringTable, CString;
    TablePlaces(es);
    StringAt(GlobalNames(es), k);
    if k < |es| {
      EntryPlaces(es, k);
      EntryIndices(es, k);
    }
    SymFits(GlobalSym(es, k));
  }

  lemma SectionSymFits(section: int)
    requires 0 <= section < 0xff00
    ensures FieldsFit(SectionSym(section).Fields())
  {
    hide FieldsFit, Sym.Fields;
    SymFits(SectionSym(section));
  }

  lemma LocalSymFits(es: entries, p: nat)
    requires Fits(es) && p < |LocalSyms(es, |es|)|
    ensures FieldsFit(LocalSyms(es, |es|)[p].Fields())
  {
    hide Fits, LocalSyms, LocalNames, SectionSym, FieldsFit, SectionName, Image;
    LocalSymsLength(es, |es|);
    LocalSymbol(es, |es|, p);
    SectionSymFits(LocalSyms(es, |es|)[p].shndx);
  }

  lemma SymbolFits(es: entries, k: nat)
    requires Fits(es) && 1 <= k < |Syms(es)|
    ensures FieldsFit(Syms(es)[k].Fields())
  {
    hide Fits, Syms, GlobalNames, LocalNames, LocalSyms, GlobalSym, FieldsFit, Sym.Fields, SymbolNames;
    SymbolPlaces(es, k);
    var l := |LocalNames(es, |es|)|;
    if k <= l {
      LocalSymFits(es, k - 1);
    } else {
      GlobalSymbolFits(es, k - 1 - l);
    }
  }

  function SymbolTable(es: entries): Shdr { Header(Image(es), SectionTotal(es) - 3) }

  lemma SymbolTableRead(es: entries)
    requires Fits(es)
    ensures SymbolTable(es) == TableHeaders(es)[0]
    ensures SymbolTable(es).offset == SymtabOffset(es) && SymbolTable(es).link == SectionTotal(es) - 2
    ensures SymbolTable(es).info == 1 + |LocalSyms(es, |es|)| && SymbolTable(es).size == 24 * SymbolTotal(es)
    ensures SymbolTable(es).typ == SHT_SYMTAB
  {
    hide Fits, Image, Header, SectionTotal, StrtabOffset, ShstrtabOffset, SymtabOffset, SectionNameOffset, StringOffset,
         GlobalNames, SymbolTotal, LocalSyms;
    TableHeaderRead(es, 0);
  }

  lemma SymbolRead(es: entries, k: nat)
    requires Fits(es) && 1 <= k <= |SymbolNames(es)|
    ensures k < |Syms(es)| && Symbol(Image(es), SymbolTable(es), k) == Syms(es)[k]
  {
    TableLengths(es);
    hide Fits, Image, Syms, SymbolTable, FieldsFit, Sym.Fields, SymtabOffset, Symbol, SymbolNames, Records, Headers, Relas, Stored, Ehdr,
         LocalSyms, GlobalNames;
    SymbolTableRead(es);
    SymbolFits(es, k);
    SymbolHeld(es, SymbolTable(es), k);
  }

  /** The name of a global symbol, by the string table the symbol table links to. */
  lemma GlobalName(es: entries, k: nat)
    requires Fits(es) && k < |GlobalNames(es)|
    ensures CString(Contents(Image(es), Header(Image(es), SymbolTable(es).link)), GlobalSym(es, k).nm) == GlobalNames(es)[k]
    ensures GlobalSym(es, k).info % 16 != STT_SECTION
  {
    hide Fits, Image, Header, SectionTotal, SymbolTable, GlobalNames, Contents, StringTable, StringOffset, CString, TextIndex,
         SymtabOffset, LocalSyms;
    SymbolTableRead(es);
    StringTableRead(es);
    StringAt(GlobalNames(es), k);
  }

  /** Every symbol reads back with its name. */
  lemma SymbolNamed(es: entries, k: nat)
    requires Fits(es) && 1 <= k <= |SymbolNames(es)|
    ensures k < |Syms(es)| && Symbol(Image(es), SymbolTable(es), k) == Syms(es)[k]
    ensures SymbolName(Image(es), SymbolTable(es), k) == SymbolNames(es)[k - 1]
  {
    hide Fits, Image, Header, Syms, SymbolNames, SymbolTable, GlobalNames, LocalNames, LocalSyms, Symbol, SectionName, Contents,
         CString, GlobalSym;
    SymbolRead(es, k);
    SymbolPlaces(es, k);
    var l := |LocalNames(es, |es|)|;
    if k <= l {
      LocalSymbol(es, |es|, k - 1);
    } else {
      GlobalName(es, k - 1 - l);
    }
  }

  lemma LocalBinding(es: entries, k: nat)
    requires Fits(es) && 1 <= k < |Syms(es)|
    ensures Syms(es)[k].Local() <==> k <= |LocalNames(es, |es|)|
  {
    hide Fits, Image, Syms, SymbolNames, GlobalNames, LocalNames, LocalSyms, SectionName, TextIndex, StringOffset;
    SymbolPlaces(es, k);
    if k <= |LocalNames(es, |es|)| { LocalSymbol(es, |es|, k - 1); }
  }

  /** sh_info is one past the last local symbol. */
  lemma LocalsFirst(es: entries, k: nat)
    requires Fits(es) && 1 <= k <= |SymbolNames(es)|
    ensures Symbol(Image(es), SymbolTable(es), k).Local() <==> k < SymbolTable(es).info
  {
    hide Fits, Image, Syms, SymbolNames, SymbolTable, LocalNames, LocalSyms, Symbol, TableHeaders, SymtabOffset, SectionTotal,
         SymbolTotal, Sym.Local;
    SymbolRead(es, k);
    SymbolTableRead(es);
    LocalSymsLength(es, |es|);
    LocalBinding(es, k);
  }

  // ----- relocations read back

  lemma {:induction false} PositionFinds(ns: seq<name>, nm: name)
    requires nm in ns
    ensures Position(ns, nm) < |ns| && ns[Position(ns, nm)] == nm
  {
    if ns[0] != nm {
      assert nm in ns[1..];
      PositionFinds(ns[1..], nm);
    }
  }

  lemma {:induction false} MissingCovers(ns: seq<name>, known: seq<name>, nm: name)
    requires nm in ns
    ensures nm in known + Missing(ns, known)
    decreases |ns|
  {
    var last := |ns| - 1;
    if nm != ns[last] {
      assert nm in ns[..last];
      MissingCovers(ns[..last], known, nm);
    }
  }

  lemma {:induction false} RelocNameListed(es: entries, n: nat, i: nat, k: nat)
    requires i < n <= |es| && k < |es[i].relocs|
    ensures es[i].relocs[k].nm in RelocNames(es, n)
  {
    if i == n - 1 {
      var names := seq(|es[i].relocs|, k requires 0 <= k < |es[i].relocs| => es[i].relocs[k].nm);
      assert names[k] in names;
    } else {
      RelocNameListed(es, n - 1, i, k);
    }
  }

  lemma RelocNamed(es: entries, i: nat, k: nat)
    requires i < |es| && k < |es[i].relocs|
    ensures var nm := es[i].relocs[k].nm;
      1 <= SymbolIndex(es, nm) <= |SymbolNames(es)| && SymbolNames(es)[SymbolIndex(es, nm) - 1] == nm
  {
    hide LocalNames, FnNames, RelocNames, Missing, Position;
    var nm := es[i].relocs[k].nm;
    RelocNameListed(es, |es|, i, k);
    MissingCovers(RelocNames(es, |es|), LocalNames(es, |es|) + FnNames(es), nm);
    PositionFinds(SymbolNames(es), nm);
  }

  lemma SignedBack(v: int)
    requires -0x8000_0000 <= v < 0x8000_0000
    ensures Signed(Unsigned(v)) == v && 0 <= Unsigned(v) < PowerOf256(8)
  {
    Powers();
    hide PowerOf256;
  }

  lemma RelocFields(es: entries, i: nat, k: nat)
    requires Fits(es) && i < |es| && k < |es[i].relocs|
    ensures FieldsFit(RelaOf(es, es[i].relocs[k]).Fields())
    ensures Signed(Unsigned(es[i].relocs[k].addend)) == es[i].relocs[k].addend
  {
    var r := es[i].relocs[k];
    assert RelocFits(r) by {
      assert EntryFits(es[i]);
    }
    RelocNamed(es, i, k);
    TablePlaces(es);
    assert |SymbolNames(es)| < SymbolTotal(es);
    hide Fits, SymbolNames, SymbolIndex, FieldsFit, Unsigned, Signed, PowerOf256, SymtabOffset, LocalSyms, StrtabOffset, StringOffset,
         GlobalNames, ShstrtabOffset, SectionNameOffset, SectionTotal, ElfFormat.Rela.Fields;
    SignedBack(r.addend);
    RelaFits(RelaOf(es, r));
  }

  /** Every relocation reads back: the name its symbol leads to, its place, type and addend. */
  lemma RelocReadsBack(es: entries, i: nat, k: nat)
    requires Fits(es) && i < |es| && k < |es[i].relocs|
    ensures var r := es[i].relocs[k];
      RelocAt(Image(es), RelaHeader(es, i), k) == ReadReloc(r.nm, r.offset, r.typ, r.addend)
  {
    hide Fits, Image, Header, SymbolNames, SymbolIndex, FieldsFit, ElfFormat.Rela.Fields, ReadRela, RelaOffset, SymbolName, TextIndex,
         SectionTotal, SectionNameOffset, Unsigned, Signed, Syms, Symbol;
    RelocFields(es, i, k);
    RelaHeld(es, i, k);
    RelocNamed(es, i, k);
    SymbolNamed(es, SymbolIndex(es, es[i].relocs[k].nm));
    assert SymbolTable(es) == Header(Image(es), RelaHeader(es, i).link);
  }

  // ----- the round trip

  /** What a reader recovers of a function: its sections by name, with its code, its data and its
      relocations.
   */
  ghost predicate Recovered(f: seq<byte>, t: nat, d: nat, e: FnEntry) {
    var text, rela, data := Header(f, t), Header(f, t + 1), Header(f, d);
    && IsObject(f) && SectionName(f, t) == TextName(e.nm) && text.typ == SHT_PROGBITS && text.flags == SHF_ALLOC + SHF_EXECINSTR
    && text.addr == e.textAddr && Contents(f, text) == e.text
    && (e.relocs != [] ==>
          && SectionName(f, t + 1) == RelaName(e.nm) && rela.typ == SHT_RELA && rela.info == t
          && rela.size == 24 * |e.relocs|
          && forall k :: 0 <= k < |e.relocs| ==>
               RelocAt(f, rela, k) == ReadReloc(e.relocs[k].nm, e.relocs[k].offset, e.relocs[k].typ, e.relocs[k].addend))
    && (e.data != [] ==>
          && SectionName(f, d) == RodataName(e.nm) && data.typ == SHT_PROGBITS && data.flags == SHF_ALLOC
          && data.addr == e.dataAddr && Contents(f, data) == e.data)
  }

  lemma EveryFunctionRecovered(es: entries, i: nat)
    requires Fits(es) && i < |es|
    ensures Recovered(Image(es), TextIndex(es, i), RodataIndex(es, i), es[i])
  {
    hide Fits, Image, Header, SectionName, Contents, TextIndex, RodataIndex, SectionTotal, RelaOffset, BlobOffset, SectionNameOffset,
         RelocAt, TextName, RelaName, RodataName, IsObject, HeaderValues;
    FileHeader(es);
    EntrySectionNames(es, i);
    EntryContents(es, i);
    TextHeaderRead(es, i);
    if es[i].relocs != [] {
      RelaHeaderRead(es, i);
      forall k | 0 <= k < |es[i].relocs|
        ensures RelocAt(Image(es), RelaHeader(es, i), k) ==
                ReadReloc(es[i].relocs[k].nm, es[i].relocs[k].offset, es[i].relocs[k].typ, es[i].relocs[k].addend)
      {
        RelocReadsBack(es, i, k);
      }
    }
    if es[i].data != [] { RodataHeaderRead(es, i); }
  }

  lemma {:induction false} PositionInDistinct(ns: seq<name>, k: nat)
    requires Distinct(ns) && k < |ns|
    ensures Position(ns, ns[k]) == k
  {
    if k > 0 {
      assert ns[0] != ns[k];
      assert Distinct(ns[1..]) by {
        forall i, j | 0 <= i < j < |ns[1..]| ensures ns[1..][i] != ns[1..][j] {
          assert ns[1..][i] == ns[i + 1] && ns[1..][j] == ns[j + 1];
        }
      }
      PositionInDistinct(ns[1..], k - 1);
    }
  }

  /** The symbol of a function's name is the function: its section, its whole code. */
  lemma FunctionSymbol(es: entries, i: nat)
    requires Fits(es) && i < |es|
    ensures var k := 1 + |LocalNames(es, |es|)| + i; var s := Symbol(Image(es), SymbolTable(es), k);
      && SymbolName(Image(es), SymbolTable(es), k) == es[i].nm
      && s.info == STB_GLOBAL * 16 + STT_FUNC && s.shndx == TextIndex(es, i) && s.value == 0 && s.size == |es[i].text|
  {
    hide Fits, Image, Syms, LocalNames, RelocNames, Missing, LocalSyms, Symbol, SymbolName, SymbolTable, StringOffset, TextIndex;
    var k := 1 + |LocalNames(es, |es|)| + i;
    assert SymbolNames(es)[k - 1] == es[i].nm;
    SymbolNamed(es, k);
    SymbolPlaces(es, k);
  }

  lemma BlobsInOrder(es: entries, i: nat, j: nat)
    requires i < j <= |es|
    ensures BlobOffset(es, i + 1) <= BlobOffset(es, j)
  {
    hide Gather, Blob;
    GatherGrows(Blob(es), j, i + 1);
  }

  /** Code and data follow each other without overlap between the file header and the relocations. */
  lemma BlobsApart(es: entries, i: nat, j: nat)
    requires i < j < |es|
    ensures var text, data, next := TextHeader(es, i), RodataHeader(es, i), TextHeader(es, j);
      64 <= text.offset && text.offset + text.size == data.offset && data.offset + data.size <= next.offset
    ensures TextHeader(es, j).offset + TextHeader(es, j).size + |es[j].data| <= BlobOffset(es, |es|)
  {
    hide BlobOffset, SectionNameOffset, SectionTotal, TextIndex;
    BlobsInOrder(es, i, j);
    BlobSteps(es, i);
    BlobSteps(es, j);
  }

  lemma RelasApart(es: entries, i: nat, j: nat)
    requires i < j < |es|
    ensures var first, second := RelaHeader(es, i), RelaHeader(es, j);
      && BlobOffset(es, |es|) <= first.offset && first.offset + first.size <= second.offset
      && second.offset + second.size <= ShstrtabOffset(es)
  {
    CountsGrow(es, j, i);
    hide BlobOffset, SectionNameOffset, SectionTotal, TextIndex, SectionCount, RelocCount;
    RelaSteps(es, i);
    RelaSteps(es, j);
  }

  lemma TablesApart(es: entries)
    ensures var symtab, strtab, shstrtab := TableHeaders(es)[0], TableHeaders(es)[1], TableHeaders(es)[2];
      && shstrtab.offset == ShstrtabOffset(es) && shstrtab.offset + shstrtab.size == strtab.offset
      && strtab.offset + strtab.size == symtab.offset && symtab.offset + symtab.size == HeadersOffset(es)
      && |Image(es)| == HeadersOffset(es) + 64 * SectionTotal(es)
  {
    FileSize(es);
    NameTableSize(es);
    hide Image, ShstrtabOffset, StrtabOffset, SymtabOffset, SectionNameOffset, StringOffset, GlobalNames, SymbolTotal, SectionTotal,
         LocalSyms;
  }

  // ----- the numbers of the gABI

  function Ascii(s: string): seq<int> { seq(|s|, i requires 0 <= i < |s| => s[i] as int) }

  lemma NamesSpelled()
    ensures DOT_TEXT == Ascii(".text.") && DOT_RELA_TEXT == Ascii(".rela.text.") && DOT_RODATA == Ascii(".rodata.")
    ensures SYMTAB_NAME == Ascii(".symtab") && SHSTRTAB_NAME == Ascii(".shstrtab") && STRTAB_NAME == Ascii(".strtab")
  {
  }

  /** The headers of a function's sections by value: program bits that are allocated and executable
      for code, relocations that refer to the symbol table and the code, allocated program bits for data.
   */
  lemma EntrySectionValues(es: entries, i: nat)
    requires Fits(es) && i < |es|
    ensures var f, t, d, e := Image(es), TextIndex(es, i), RodataIndex(es, i), es[i];
      && (var h := Header(f, t); h == Shdr(h.nm, 1, 6, e.textAddr, h.offset, |e.text|, 0, 0, 4, 0))
      && (e.relocs != [] ==> var h := Header(f, t + 1); h == Shdr(h.nm, 4, 0, 0, h.offset, 24 * |e.relocs|, SectionTotal(es) - 3, t, 8, 24))
      && (e.data != [] ==> var h := Header(f, d); h == Shdr(h.nm, 1, 2, e.dataAddr, h.offset, |e.data|, 0, 0, 8, 0))
  {
    hide Fits, Image, Header, TextIndex, RodataIndex, SectionTotal, BlobOffset, RelaOffset, SectionNameOffset;
    TextHeaderRead(es, i);
    if es[i].relocs != [] { RelaHeaderRead(es, i); }
    if es[i].data != [] { RodataHeaderRead(es, i); }
  }

  /** The symbol table and the two string tables. */
  lemma TableSectionValues(es: entries)
    requires Fits(es)
    ensures var f, n := Image(es), SectionTotal(es);
      && (var h := Header(f, n - 3); h == Shdr(h.nm, 2, 0, 0, h.offset, 24 * SymbolTotal(es), n - 2, h.info, 8, 24))
      && (var h := Header(f, n - 2); h == Shdr(h.nm, 3, 0, 0, h.offset, h.size, 0, 0, 1, 0))
      && (var h := Header(f, n - 1); h == Shdr(h.nm, 3, 0, 0, h.offset, h.size, 0, 0, 1, 0))
  {
    hide Fits, Image, Header, SectionTotal, StrtabOffset, ShstrtabOffset, SymtabOffset, SectionNameOffset, StringOffset,
         GlobalNames, SymbolTotal, LocalSyms;
    TableHeaderRead(es, 0);
    TableHeaderRead(es, 1);
    TableHeaderRead(es, 2);
  }

  /** Section 0 and symbol 0 are all zeros. */
  lemma FirstsAreNull(es: entries)
    requires Fits(es)
    ensures Header(Image(es), 0) == Shdr(0, 0, 0, 0, 0, 0, 0, 0, 0, 0)
    ensures Symbol(Image(es), SymbolTable(es), 0) == Sym(0, 0, 0, 0, 0, 0)
  {
    NullsFit();
    NullsFirst(es);
    hide Fits, Image, Header, Headers, Syms, SymbolTable, Symbol, FieldsFit, Shdr.Fields, Sym.Fields, TableHeaders, SymtabOffset;
    HeaderHeld(es, 0);
    SymbolTableRead(es);
    SymbolHeld(es, SymbolTable(es), 0);
  }

  lemma NullsFit()
    ensures FieldsFit(Shdr(0, 0, 0, 0, 0, 0, 0, 0, 0, 0).Fields()) && FieldsFit(Sym(0, 0, 0, 0, 0, 0).Fields())
  {
  }

  lemma NullsFirst(es: entries)
    ensures Headers(es) != [] && Headers(es)[0] == Shdr(0, 0, 0, 0, 0, 0, 0, 0, 0, 0)
    ensures Syms(es) != [] && Syms(es)[0] == Sym(0, 0, 0, 0, 0, 0)
  {
    hide FnHeaders, TableHeaders, LocalSyms, GlobalNames, GlobalSym;
  }

  /** Symbols by value: section symbols are local, functions global with their size, and the other
      names global and undefined.
   */
  lemma SymbolValues(es: entries, k: nat)
    requires Fits(es) && 1 <= k <= |SymbolNames(es)|
    ensures var s, l := Symbol(Image(es), SymbolTable(es), k), |LocalNames(es, |es|)|;
      if k <= l then s == Sym(0, 3, 0, s.shndx, 0, 0)
      else if k <= l + |es| then s == Sym(s.nm, 18, 0, TextIndex(es, k - 1 - l), 0, |es[k - 1 - l].text|)
      else s == Sym(s.nm, 16, 0, 0, 0, 0)
  {
    hide Fits, Image, Syms, SymbolNames, SymbolTable, GlobalNames, LocalNames, LocalSyms, Symbol, StringOffset, TextIndex, SectionName;
    SymbolRead(es, k);
    SymbolPlaces(es, k);
    if k <= |LocalNames(es, |es|)| { LocalSymbol(es, |es|, k - 1); }
  }
}
