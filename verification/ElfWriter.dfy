/** Writing an object file: sizes first, then one pass over a buffer of exactly that size. */
module ElfWriter {
  import opened ElfFormat
  import opened ElfImage
  import opened ElfReader

  class Writer {
    const data: array<byte>
    var ofs: nat
    /** What has been written. */
    ghost var written: seq<byte>

    ghost predicate Valid()
      reads this, data
    {
      ofs <= data.Length && written == data[..ofs]
    }

    constructor (size: nat)
      ensures Valid() && ofs == 0 && written == [] && data.Length == size && fresh(data)
    {
      data := new byte[size](_ => 0);
      ofs := 0;
      written := [];
    }

    /** Copies bytes to the current offset and moves it past them. */
    method Put(bytes: seq<byte>)
      requires Valid() && ofs + |bytes| <= data.Length
      modifies this, data
      ensures Valid() && ofs == old(ofs) + |bytes| && written == old(written) + bytes
    {
      for k := 0 to |bytes|
        invariant ofs == old(ofs) && written == old(written)
        invariant data[..ofs] == old(data[..ofs]) && data[ofs..ofs + k] == bytes[..k]
      {
        data[ofs + k] := bytes[k];
      }
      ofs := ofs + |bytes|;
      written := written + bytes;
    }
  }

  lemma Regrouped(a: seq<byte>, b: seq<byte>, c: seq<byte>, d: seq<byte>, e: seq<byte>)
    ensures a + b + c == a + (b + c) && a + b + c + d == a + (b + (c + d)) && a + b + c + d + e == a + (b + (c + d + e))
  {
  }

  // ----- symbol indices

  /** The map numbers the names from 1 on. */
  ghost predicate IndexMap(m: map<name, nat>, ns: seq<name>) {
    && Distinct(ns)
    && (forall k :: 0 <= k < |ns| ==> ns[k] in m && m[ns[k]] == k + 1)
    && (forall nm :: nm in m ==> nm in ns)
  }

  lemma Emplaced(m: map<name, nat>, ns: seq<name>, nm: name)
    requires IndexMap(m, ns) && nm !in ns
    ensures nm !in m && IndexMap(m[nm := |ns| + 1], ns + [nm])
  {
  }

  lemma PrefixDistinct(ns: seq<name>, more: seq<name>)
    requires Distinct(ns + more)
    ensures Distinct(ns) && (more != [] ==> more[0] !in ns)
  {
    var all := ns + more;
    forall i, j | 0 <= i < j < |ns| ensures ns[i] != ns[j] { assert all[i] == ns[i] && all[j] == ns[j]; }
    if more != [] {
      forall i | 0 <= i < |ns| ensures ns[i] != more[0] { assert all[i] == ns[i] && all[|ns|] == more[0]; }
    }
  }

  /** What comes after the first i entries' section symbols. */
  lemma {:induction false} LocalTail(es: entries, n: nat, i: nat) returns (tail: seq<name>)
    requires i <= n <= |es|
    ensures LocalNames(es, n) == LocalNames(es, i) + tail
  {
    if i == n {
      tail := [];
    } else {
      tail := LocalTail(es, n - 1, i);
      tail := tail + LocalNames(es, n)[|LocalNames(es, n - 1)|..];
    }
  }

  lemma NewHere(all: seq<name>, a: seq<name>, x: name, rest: seq<name>)
    requires Distinct(all) && all == a + [x] + rest
    ensures x !in a
  {
    assert all == a + ([x] + rest);
    PrefixDistinct(a, [x] + rest);
  }

  lemma SecondNew(all: seq<name>, a: seq<name>, x: name, y: name, rest: seq<name>)
    requires Distinct(all) && all == a + [x] + ([y] + rest)
    ensures y !in a + [x]
  {
    assert all == (a + [x]) + [y] + rest;
    NewHere(all, a + [x], y, rest);
  }

  /** All names, around the section symbols of entry i. */
  lemma AroundEntry(es: entries, i: nat) returns (rest: seq<name>)
    requires i < |es|
    ensures LocalNames(es, |es|) + FnNames(es) == LocalNames(es, i) + [TextName(es[i].nm)] + rest
    ensures es[i].data != [] ==> rest != [] && rest == [RodataName(es[i].nm)] + rest[1..]
  {
    var t := LocalTail(es, |es|, i + 1);
    var c := if es[i].data != [] then [RodataName(es[i].nm)] else [];
    assert LocalNames(es, i + 1) == LocalNames(es, i) + [TextName(es[i].nm)] + c;
    hide LocalNames, FnNames, TextName, RodataName;
    rest := c + (t + FnNames(es));
  }

  /** The next entry's section symbols are new. */
  lemma NextLocals(es: entries, i: nat)
    requires WellNamed(es) && i < |es|
    ensures TextName(es[i].nm) !in LocalNames(es, i)
    ensures es[i].data != [] ==> RodataName(es[i].nm) !in LocalNames(es, i) + [TextName(es[i].nm)]
  {
    var rest := AroundEntry(es, i);
    hide LocalNames, FnNames, TextName, RodataName, Distinct;
    NewHere(LocalNames(es, |es|) + FnNames(es), LocalNames(es, i), TextName(es[i].nm), rest);
    if es[i].data != [] {
      SecondNew(LocalNames(es, |es|) + FnNames(es), LocalNames(es, i), TextName(es[i].nm), RodataName(es[i].nm), rest[1..]);
    }
  }

  method CollectLocals(es: entries) returns (symbols: map<name, nat>, nsyms: nat)
    requires WellNamed(es)
    ensures IndexMap(symbols, LocalNames(es, |es|)) && nsyms == 1 + |LocalNames(es, |es|)|
  {
    symbols, nsyms := map[], 1;
    hide TextName, RodataName;
    for i := 0 to |es|
      invariant IndexMap(symbols, LocalNames(es, i)) && nsyms == 1 + |LocalNames(es, i)|
    {
      NextLocals(es, i);
      Emplaced(symbols, LocalNames(es, i), TextName(es[i].nm));
      symbols := symbols[TextName(es[i].nm) := nsyms];
      nsyms := nsyms + 1;
      if es[i].data != [] {
        Emplaced(symbols, LocalNames(es, i) + [TextName(es[i].nm)], RodataName(es[i].nm));
        symbols := symbols[RodataName(es[i].nm) := nsyms];
        nsyms := nsyms + 1;
      }
    }
  }

  method CollectFunctions(es: entries, before: map<name, nat>, count: nat) returns (symbols: map<name, nat>, nsyms: nat)
    requires WellNamed(es) && IndexMap(before, LocalNames(es, |es|)) && count == 1 + |LocalNames(es, |es|)|
    ensures IndexMap(symbols, LocalNames(es, |es|) + FnNames(es)) && nsyms == 1 + |LocalNames(es, |es|)| + |es|
  {
    ghost var locals := LocalNames(es, |es|);
    symbols, nsyms := before, count;
    assert locals + FnNames(es)[..0] == locals;
    hide LocalNames;
    for i := 0 to |es|
      invariant IndexMap(symbols, locals + FnNames(es)[..i]) && nsyms == 1 + |locals| + i
    {
      assert locals + FnNames(es) == (locals + FnNames(es)[..i]) + FnNames(es)[i..];
      PrefixDistinct(locals + FnNames(es)[..i], FnNames(es)[i..]);
      Emplaced(symbols, locals + FnNames(es)[..i], es[i].nm);
      assert locals + FnNames(es)[..i + 1] == locals + FnNames(es)[..i] + [es[i].nm];
      symbols := symbols[es[i].nm := nsyms];
      nsyms := nsyms + 1;
    }
    assert locals + FnNames(es)[..|es|] == locals + FnNames(es);
  }

  /** What is known after the functions and the first names referred to. */
  function Known(es: entries, done: seq<name>): seq<name> {
    LocalNames(es, |es|) + (FnNames(es) + Missing(done, LocalNames(es, |es|) + FnNames(es)))
  }

  lemma KnownStep(es: entries, done: seq<name>, nm: name)
    ensures nm in Known(es, done) ==> Known(es, done + [nm]) == Known(es, done)
    ensures nm !in Known(es, done) ==> Known(es, done + [nm]) == Known(es, done) + [nm]
  {
    var known := LocalNames(es, |es|) + FnNames(es);
    assert (done + [nm])[..|done|] == done;
    assert Known(es, done) == known + Missing(done, known);
    assert Known(es, done + [nm]) == known + Missing(done + [nm], known);
    hide LocalNames, FnNames;
  }

  function NamesOf(rs: seq<Reloc>): seq<name> { seq(|rs|, k requires 0 <= k < |rs| => rs[k].nm) }

  /** Symbols, names and their count after the names in done. */
  ghost predicate Collected(es: entries, done: seq<name>, symbols: map<name, nat>, names: seq<name>, nsyms: nat) {
    IndexMap(symbols, Known(es, done)) && nsyms == 1 + |Known(es, done)| && LocalNames(es, |es|) + names == Known(es, done)
  }

  lemma CollectedStep(es: entries, done: seq<name>, symbols: map<name, nat>, names: seq<name>, nsyms: nat, nm: name)
    requires Collected(es, done, symbols, names, nsyms)
    ensures if nm in symbols then Collected(es, done + [nm], symbols, names, nsyms)
            else Collected(es, done + [nm], symbols[nm := nsyms], names + [nm], nsyms + 1)
  {
    hide LocalNames, Known, IndexMap;
    KnownStep(es, done, nm);
    KeysAre(symbols, Known(es, done), nm);
    if nm !in symbols {
      Emplaced(symbols, Known(es, done), nm);
      assert LocalNames(es, |es|) + (names + [nm]) == LocalNames(es, |es|) + names + [nm];
    }
  }

  /** The names one function's relocations add. */
  method CollectEntry(es: entries, rs: seq<Reloc>, ghost start: seq<name>, symbols0: map<name, nat>, names0: seq<name>, nsyms0: nat)
    returns (symbols: map<name, nat>, names: seq<name>, nsyms: nat)
    requires Collected(es, start, symbols0, names0, nsyms0)
    ensures Collected(es, start + NamesOf(rs), symbols, names, nsyms)
  {
    hide Collected;
    symbols, names, nsyms := symbols0, names0, nsyms0;
    assert start + NamesOf(rs[..0]) == start;
    for k := 0 to |rs|
      invariant Collected(es, start + NamesOf(rs[..k]), symbols, names, nsyms)
    {
      var nm := rs[k].nm;
      CollectedStep(es, start + NamesOf(rs[..k]), symbols, names, nsyms, nm);
      assert start + NamesOf(rs[..k]) + [nm] == start + NamesOf(rs[..k + 1]);
      if nm !in symbols {
        symbols, names, nsyms := symbols[nm := nsyms], names + [nm], nsyms + 1;
      }
    }
    assert rs[..|rs|] == rs;
  }

  /** Adds the names that relocations refer to and nothing else defines. */
  method CollectReferences(es: entries, before: map<name, nat>, count: nat) returns (symbols: map<name, nat>, names: seq<name>, nsyms: nat)
    requires IndexMap(before, LocalNames(es, |es|) + FnNames(es)) && count == 1 + |LocalNames(es, |es|) + FnNames(es)|
    ensures IndexMap(symbols, SymbolNames(es)) && names == GlobalNames(es) && nsyms == SymbolTotal(es)
  {
    symbols, names, nsyms := before, FnNames(es), count;
    assert Known(es, []) == LocalNames(es, |es|) + FnNames(es);
    assert Collected(es, RelocNames(es, 0), symbols, names, nsyms);
    for i := 0 to |es|
      invariant Collected(es, RelocNames(es, i), symbols, names, nsyms)
    {
      hide Collected;
      symbols, names, nsyms := CollectEntry(es, es[i].relocs, RelocNames(es, i), symbols, names, nsyms);
      assert RelocNames(es, i + 1) == RelocNames(es, i) + NamesOf(es[i].relocs);
    }
    hide LocalNames, IndexMap, RelocNames;
    SamePrefix(LocalNames(es, |es|), names, GlobalNames(es));
  }

  lemma KeysAre(m: map<name, nat>, ns: seq<name>, nm: name)
    requires IndexMap(m, ns)
    ensures nm in m <==> nm in ns
  {
  }

  lemma SamePrefix(a: seq<name>, b: seq<name>, c: seq<name>)
    requires a + b == a + c
    ensures b == c
  {
    assert (a + b)[|a|..] == b && (a + c)[|a|..] == c;
  }

  /** The index the map gives a name is its place in the symbol table. */
  lemma IndexIsPosition(m: map<name, nat>, ns: seq<name>, nm: name)
    requires IndexMap(m, ns) && nm in ns
    ensures nm in m && m[nm] == 1 + Position(ns, nm)
  {
    var k :| 0 <= k < |ns| && ns[k] == nm;
    PositionInDistinct(ns, k);
  }

  // ----- sizes

  /** The section indices of the first n entries. */
  ghost predicate Indexed(es: entries, n: nat, textIndex: seq<nat>, rodataIndex: seq<nat>) {
    && |textIndex| == |rodataIndex| == n <= |es|
    && forall i :: 0 <= i < n ==> textIndex[i] == TextIndex(es, i) && (es[i].data != [] ==> rodataIndex[i] == RodataIndex(es, i))
  }

  lemma IndexNext(es: entries, i: nat, textIndex: seq<nat>, rodataIndex: seq<nat>, text: nat, rodata: nat)
    requires Indexed(es, i, textIndex, rodataIndex) && i < |es|
    requires text == TextIndex(es, i) && (es[i].data != [] ==> rodata == RodataIndex(es, i))
    ensures Indexed(es, i + 1, textIndex + [text], rodataIndex + [rodata])
  {
    hide TextIndex, RodataIndex;
  }

  /** What one entry adds to the sizes. */
  lemma MeasureNext(es: entries, i: nat)
    requires i < |es|
    ensures var e := es[i];
      && |Gather(Blob(es), i + 1)| == |Gather(Blob(es), i)| + |e.text| + |e.data|
      && RelocCount(es, i + 1) == RelocCount(es, i) + |e.relocs|
      && SectionCount(es, i + 1) == SectionCount(es, i) + Sections(e)
      && SectionNameOffset(es, i + 1) == SectionNameOffset(es, i) + |e.nm| + 7 + (if e.relocs != [] then |e.nm| + 12 else 0)
                                         + (if e.data != [] then |e.nm| + 9 else 0)
  {
    SectionNameLengths(es[i]);
    NameSteps(es, i);
    BlobSteps(es, i);
    hide SectionNames, SectionNameOffset, Gather;
  }

  /** The pass that measures everything before anything is written. */
  method Measure(es: entries) returns (blobSize: nat, relaSize: nat, shstrtabSize: nat, shnum: nat,
                                       textIndex: seq<nat>, rodataIndex: seq<nat>)
    ensures blobSize == |Gather(Blob(es), |es|)| && relaSize == 24 * RelocCount(es, |es|)
    ensures shstrtabSize == SectionNameOffset(es, |es|) && shnum == SectionTotal(es)
    ensures Indexed(es, |es|, textIndex, rodataIndex)
  {
    blobSize, relaSize, shstrtabSize, shnum, textIndex, rodataIndex := 0, 0, 27, 1, [], [];
    assert Indexed(es, 0, textIndex, rodataIndex);
    hide Indexed;
    for i := 0 to |es|
      invariant blobSize == |Gather(Blob(es), i)| && relaSize == 24 * RelocCount(es, i)
      invariant shstrtabSize == SectionNameOffset(es, i) && shnum == 1 + SectionCount(es, i)
      invariant Indexed(es, i, textIndex, rodataIndex)
    {
      var e := es[i];
      MeasureNext(es, i);
      hide Gather, RelocCount, SectionNameOffset, SectionCount;
      IndexNext(es, i, textIndex, rodataIndex, shnum, shnum + 1 + (if e.relocs != [] then 1 else 0));
      shstrtabSize := shstrtabSize + |e.nm| + 7;
      blobSize := blobSize + |e.text|;
      textIndex := textIndex + [shnum];
      shnum := shnum + 1;
      if e.relocs != [] {
        shnum := shnum + 1;
        shstrtabSize := shstrtabSize + |e.nm| + 12;
        relaSize := relaSize + |e.relocs| * 24;
      }
      rodataIndex := rodataIndex + [shnum];
      if e.data != [] {
        shnum := shnum + 1;
        shstrtabSize := shstrtabSize + |e.nm| + 9;
        blobSize := blobSize + |e.data|;
      }
    }
    shnum := shnum + 3;
  }

  // ----- writing the parts

  /** One more piece. */
  lemma NextPiece(start: seq<byte>, f: int -> seq<byte>, n: nat, i: nat, piece: seq<byte>)
    requires i < n && f(i) == piece
    ensures start + Gather(f, i) + piece == start + Gather(f, i + 1)
    ensures |Gather(f, i + 1)| == |Gather(f, i)| + |piece| <= |Gather(f, n)|
  {
    GatherGrows(f, n, i + 1);
    Regrouped(start, Gather(f, i), piece, [], []);
  }

  lemma NoPiece(start: seq<byte>, f: int -> seq<byte>)
    ensures Gather(f, 0) == [] && start + Gather(f, 0) == start
  {
  }

  method WriteBlobs(w: Writer, es: entries)
    requires w.Valid() && w.ofs + |Gather(Blob(es), |es|)| <= w.data.Length
    modifies w, w.data
    ensures w.Valid() && w.ofs == old(w.ofs) + |Gather(Blob(es), |es|)| && w.written == old(w.written) + Gather(Blob(es), |es|)
  {
    hide Writer.Valid, Gather;
    ghost var start := w.written;
    NoPiece(start, Blob(es));
    for i := 0 to |es|
      invariant w.Valid() && w.ofs == old(w.ofs) + |Gather(Blob(es), i)| && w.written == start + Gather(Blob(es), i)
    {
      NextPiece(start, Blob(es), |es|, i, es[i].text + es[i].data);
      PutTwo(w, es[i].text, es[i].data);
    }
  }

  method PutTwo(w: Writer, a: seq<byte>, b: seq<byte>)
    requires w.Valid() && w.ofs + |a + b| <= w.data.Length
    modifies w, w.data
    ensures w.Valid() && w.ofs == old(w.ofs) + |a + b| && w.written == old(w.written) + (a + b)
  {
    Regrouped(w.written, a, b, [], []);
    w.Put(a);
    w.Put(b);
  }

  lemma NextRelas(es: entries, i: nat)
    requires i < |es|
    ensures Relas(es, i + 1) == Relas(es, i) + EntryRelas(es, es[i].relocs)
    ensures RelocCount(es, i + 1) == RelocCount(es, i) + |es[i].relocs| <= RelocCount(es, |es|)
  {
    hide RelaOf;
    CountsGrow(es, |es|, i + 1);
  }

  method WriteRelas(w: Writer, es: entries, symbols: map<name, nat>)
    requires w.Valid() && w.ofs + 24 * RelocCount(es, |es|) <= w.data.Length
    requires IndexMap(symbols, SymbolNames(es))
    modifies w, w.data
    ensures w.Valid() && w.ofs == old(w.ofs) + 24 * RelocCount(es, |es|)
    ensures w.written == old(w.written) + Records(Relas(es, |es|))
  {
    ghost var before, ofs := w.written, w.ofs;
    assert Relas(es, 0) == [] && RelocCount(es, 0) == 0 && before == before + Records([]);
    hide SymbolNames, IndexMap, Writer.Valid, Relas, Records, RelocCount, EntryRelas;
    for i := 0 to |es|
      invariant w.Valid() && w.ofs == ofs + 24 * RelocCount(es, i)
      invariant w.written == before + Records(Relas(es, i))
    {
      NextRelas(es, i);
      WriteEntryRelas(w, es, symbols, i, before, Relas(es, i));
    }
  }

  function EntryRelas(es: entries, rs: seq<Reloc>): seq<fields> { seq(|rs|, k requires 0 <= k < |rs| => RelaOf(es, rs[k]).Fields()) }

  method WriteEntryRelas(w: Writer, es: entries, symbols: map<name, nat>, i: nat, ghost before: seq<byte>, ghost done: seq<fields>)
    requires i < |es| && w.Valid() && w.ofs + 24 * |es[i].relocs| <= w.data.Length && IndexMap(symbols, SymbolNames(es))
    requires w.written == before + Records(done)
    modifies w, w.data
    ensures w.Valid() && w.ofs == old(w.ofs) + 24 * |es[i].relocs|
    ensures w.written == before + Records(done + EntryRelas(es, es[i].relocs))
  {
    hide SymbolNames, IndexMap, Records, Writer.Valid, SymbolIndex, Stored, ElfFormat.Rela.Fields;
    var rs := es[i].relocs;
    assert done + EntryRelas(es, rs[..0]) == done;
    for k := 0 to |rs|
      invariant w.Valid() && w.ofs == old(w.ofs) + 24 * k
      invariant w.written == before + Records(done + EntryRelas(es, rs[..k]))
    {
      var r := rs[k];
      RelocNamed(es, i, k);
      IndexOfReloc(es, symbols, r.nm);
      var rela := ElfFormat.Rela(r.offset, symbols[r.nm], r.typ, Unsigned(r.addend));
      RelaWidth(rela);
      ghost var so := done + EntryRelas(es, rs[..k]);
      w.Put(Stored(rela.Fields()));
      RecordsAppend(so, rela.Fields());
      assert done + EntryRelas(es, rs[..k + 1]) == so + [rela.Fields()];
      Regrouped(before, Records(so), Stored(rela.Fields()), [], []);
    }
    assert rs[..|rs|] == rs;
  }

  lemma IndexOfReloc(es: entries, symbols: map<name, nat>, nm: name)
    requires IndexMap(symbols, SymbolNames(es)) && 1 <= SymbolIndex(es, nm) <= |SymbolNames(es)|
    requires SymbolNames(es)[SymbolIndex(es, nm) - 1] == nm
    ensures nm in symbols && symbols[nm] == SymbolIndex(es, nm)
  {
    hide SymbolNames;
    IndexIsPosition(symbols, SymbolNames(es), nm);
  }

  method WriteNames(w: Writer, es: entries)
    requires w.Valid() && w.ofs + |NameTable(es)| <= w.data.Length
    modifies w, w.data
    ensures w.Valid() && w.ofs == old(w.ofs) + |NameTable(es)| && w.written == old(w.written) + NameTable(es)
  {
    hide BaseNames, Writer.Valid, SectionNames, Gather;
    w.Put(BaseNames());
    ghost var start := w.written;
    NoPiece(start, NamePieces(es));
    for i := 0 to |es|
      invariant w.Valid() && w.ofs == old(w.ofs) + |BaseNames()| + |Gather(NamePieces(es), i)|
      invariant w.written == start + Gather(NamePieces(es), i)
    {
      NextPiece(start, NamePieces(es), |es|, i, SectionNames(es[i]));
      PutNames(w, es[i]);
    }
    Regrouped(old(w.written), BaseNames(), Gather(NamePieces(es), |es|), [], []);
  }

  method PutIf(w: Writer, wanted: bool, bytes: seq<byte>)
    requires w.Valid() && (wanted ==> w.ofs + |bytes| <= w.data.Length)
    modifies w, w.data
    ensures w.Valid() && w.ofs == old(w.ofs) + (if wanted then |bytes| else 0)
    ensures w.written == old(w.written) + (if wanted then bytes else [])
  {
    if wanted { w.Put(bytes); }
  }

  method PutNames(w: Writer, e: FnEntry)
    requires w.Valid() && w.ofs + |SectionNames(e)| <= w.data.Length
    modifies w, w.data
    ensures w.Valid() && w.ofs == old(w.ofs) + |SectionNames(e)| && w.written == old(w.written) + SectionNames(e)
  {
    SectionNameLengths(e);
    ghost var start := w.written;
    ghost var a, b, c := TextName(e.nm) + [0], if e.relocs != [] then RelaName(e.nm) + [0] else [],
      if e.data != [] then RodataName(e.nm) + [0] else [];
    assert SectionNames(e) == a + b + c;
    hide Writer.Valid, SectionNames, TextName, RelaName, RodataName;
    w.Put(TextName(e.nm) + [0]);
    PutIf(w, e.relocs != [], RelaName(e.nm) + [0]);
    PutIf(w, e.data != [], RodataName(e.nm) + [0]);
    Regrouped(start, a, b, c, []);
    assert a + (b + c) == a + b + c;
  }

  /** Writes the string table and notes where each name is. */
  method WriteStrings(w: Writer, names: seq<name>) returns (offsets: map<name, nat>)
    requires w.Valid() && w.ofs + |StringTable(names)| <= w.data.Length && Distinct(names)
    modifies w, w.data
    ensures w.Valid() && w.ofs == old(w.ofs) + |StringTable(names)| && w.written == old(w.written) + StringTable(names)
    ensures forall k :: 0 <= k < |names| ==> names[k] in offsets && offsets[names[k]] == StringOffset(names, k)
  {
    hide Writer.Valid, Gather;
    w.Put([0]);
    ghost var start := w.written;
    NoPiece(start, StringPieces(names));
    var nameOffset := 1;
    offsets := map[];
    for k := 0 to |names|
      invariant w.Valid() && w.ofs == old(w.ofs) + nameOffset && w.written == start + Gather(StringPieces(names), k)
      invariant nameOffset == StringOffset(names, k)
      invariant OffsetsNoted(names, k, offsets)
    {
      NextPiece(start, StringPieces(names), |names|, k, names[k] + [0]);
      NoteOffset(names, k, offsets);
      offsets := offsets[names[k] := nameOffset];
      w.Put(names[k] + [0]);
      nameOffset := nameOffset + |names[k]| + 1;
    }
    Regrouped(old(w.written), [0], Gather(StringPieces(names), |names|), [], []);
  }

  ghost predicate OffsetsNoted(names: seq<name>, n: nat, offsets: map<name, nat>) {
    n <= |names| && forall j :: 0 <= j < n ==> names[j] in offsets && offsets[names[j]] == StringOffset(names, j)
  }

  lemma NoteOffset(names: seq<name>, k: nat, offsets: map<name, nat>)
    requires Distinct(names) && k < |names| && OffsetsNoted(names, k, offsets)
    ensures OffsetsNoted(names, k + 1, offsets[names[k] := StringOffset(names, k)])
  {
    hide StringOffset;
  }

  // ----- symbols and section headers

  lemma SymsAppend(ss: seq<Sym>, s: Sym)
    ensures Records(SymFields(ss + [s])) == Records(SymFields(ss)) + Stored(s.Fields())
    ensures |Stored(s.Fields())| == 24
  {
    hide Stored, Records, Sym.Fields;
    SymWidth(s);
    RecordsAppend(SymFields(ss), s.Fields());
    assert SymFields(ss + [s]) == SymFields(ss) + [s.Fields()];
  }

  lemma ShdrsAppend(hs: seq<Shdr>, h: Shdr)
    ensures Records(ShdrFields(hs + [h])) == Records(ShdrFields(hs)) + Stored(h.Fields())
    ensures |Stored(h.Fields())| == 64
  {
    hide Stored, Records, Shdr.Fields;
    ShdrWidth(h);
    RecordsAppend(ShdrFields(hs), h.Fields());
    assert ShdrFields(hs + [h]) == ShdrFields(hs) + [h.Fields()];
  }

  method PutSym(w: Writer, s: Sym, ghost start: seq<byte>, ghost done: seq<Sym>)
    requires w.Valid() && w.ofs + 24 <= w.data.Length && w.written == start + Records(SymFields(done))
    modifies w, w.data
    ensures w.Valid() && w.ofs == old(w.ofs) + 24 && w.written == start + Records(SymFields(done + [s]))
  {
    hide Writer.Valid, Stored, Records, SymFields, Sym.Fields;
    SymsAppend(done, s);
    w.Put(Stored(s.Fields()));
    Regrouped(start, Records(SymFields(done)), Stored(s.Fields()), [], []);
  }

  method PutShdr(w: Writer, h: Shdr, ghost start: seq<byte>, ghost done: seq<Shdr>)
    requires w.Valid() && w.ofs + 64 <= w.data.Length && w.written == start + Records(ShdrFields(done))
    modifies w, w.data
    ensures w.Valid() && w.ofs == old(w.ofs) + 64 && w.written == start + Records(ShdrFields(done + [h]))
  {
    hide Writer.Valid, Stored, Records, ShdrFields, Shdr.Fields;
    ShdrsAppend(done, h);
    w.Put(Stored(h.Fields()));
    Regrouped(start, Records(ShdrFields(done)), Stored(h.Fields()), [], []);
  }

  /** The function with this name, or the number of functions. */
  method FindFunction(es: entries, nm: name) returns (i: nat)
    ensures i <= |es| && (i < |es| ==> es[i].nm == nm) && forall j :: 0 <= j < i ==> es[j].nm != nm
  {
    i := 0;
    while i < |es| && es[i].nm != nm
      invariant i <= |es| && forall j :: 0 <= j < i ==> es[j].nm != nm
    {
      i := i + 1;
    }
  }

  lemma {:induction false} MissingIsNew(ns: seq<name>, known: seq<name>, nm: name)
    requires nm in Missing(ns, known)
    ensures nm !in known
    decreases |ns|
  {
    var last := |ns| - 1;
    if nm in Missing(ns[..last], known) { MissingIsNew(ns[..last], known, nm); }
  }

  lemma FunctionsDiffer(es: entries, i: nat, k: nat)
    requires Distinct(SymbolNames(es)) && i < k < |es|
    ensures es[i].nm != es[k].nm
  {
    var ns, l := SymbolNames(es), |LocalNames(es, |es|)|;
    assert ns[l + i] == es[i].nm && ns[l + k] == es[k].nm;
  }

  lemma ReferenceIsNoFunction(es: entries, i: nat, k: nat)
    requires i < |es| <= k < |GlobalNames(es)|
    ensures es[i].nm != GlobalNames(es)[k]
  {
    var m := Missing(RelocNames(es, |es|), LocalNames(es, |es|) + FnNames(es));
    assert GlobalNames(es)[k] == m[k - |es|];
    MissingIsNew(RelocNames(es, |es|), LocalNames(es, |es|) + FnNames(es), m[k - |es|]);
    assert FnNames(es)[i] == es[i].nm;
  }

  /** Name k of the string table is that of function k, or of no function. */
  lemma NameOfFunction(es: entries, k: nat, i: nat)
    requires Distinct(SymbolNames(es)) && k < |GlobalNames(es)| && i <= |es|
    requires (i < |es| ==> es[i].nm == GlobalNames(es)[k]) && forall j :: 0 <= j < i ==> es[j].nm != GlobalNames(es)[k]
    ensures if k < |es| then i == k else i == |es|
  {
    if k < |es| {
      assert GlobalNames(es)[k] == es[k].nm;
      forall j: nat | j < k ensures es[j].nm != es[k].nm { FunctionsDiffer(es, j, k); }
    } else {
      forall j: nat | j < |es| ensures es[j].nm != GlobalNames(es)[k] { ReferenceIsNoFunction(es, j, k); }
    }
  }

  lemma GlobalsDistinct(es: entries)
    requires Distinct(SymbolNames(es))
    ensures Distinct(GlobalNames(es))
  {
    var l, ns := LocalNames(es, |es|), GlobalNames(es);
    hide LocalNames, GlobalNames;
    forall i, j | 0 <= i < j < |ns| ensures ns[i] != ns[j] {
      assert SymbolNames(es)[|l| + i] == ns[i] && SymbolNames(es)[|l| + j] == ns[j];
    }
  }

  lemma {:induction false} LocalSymsGrow(es: entries, n: nat, i: nat)
    requires i <= n <= |es|
    ensures |LocalSyms(es, i)| <= |LocalSyms(es, n)|
  {
    if i < n { LocalSymsGrow(es, n - 1, i); }
  }

  /** Null symbol and section symbols; counts the local ones. */
  method WriteLocals(w: Writer, es: entries, textIndex: seq<nat>, rodataIndex: seq<nat>) returns (locals: nat)
    requires w.Valid() && w.ofs + 24 * (1 + |LocalSyms(es, |es|)|) <= w.data.Length
    requires Indexed(es, |es|, textIndex, rodataIndex)
    modifies w, w.data
    ensures locals == 1 + |LocalSyms(es, |es|)|
    ensures w.Valid() && w.ofs == old(w.ofs) + 24 * (1 + |LocalSyms(es, |es|)|)
    ensures w.written == old(w.written) + Records(SymFields([Sym(0, 0, 0, 0, 0, 0)] + LocalSyms(es, |es|)))
  {
    hide Writer.Valid, Records, SymFields, TextIndex, RodataIndex;
    ghost var start := w.written;
    EmptyRecords();
    PutSym(w, Sym(0, 0, 0, 0, 0, 0), start, []);
    ghost var done := [Sym(0, 0, 0, 0, 0, 0)];
    assert [] + done == done;
    locals := 1;
    for i := 0 to |es|
      invariant done == [Sym(0, 0, 0, 0, 0, 0)] + LocalSyms(es, i) && locals == |done|
      invariant w.Valid() && w.ofs == old(w.ofs) + 24 * locals && w.written == start + Records(SymFields(done))
    {
      LocalSymsGrow(es, |es|, i + 1);
      var s := Sym(0, STB_LOCAL * 16 + STT_SECTION, 0, textIndex[i], 0, 0);
      PutSym(w, s, start, done);
      done := done + [s];
      locals := locals + 1;
      if es[i].data != [] {
        s := Sym(0, STB_LOCAL * 16 + STT_SECTION, 0, rodataIndex[i], 0, 0);
        PutSym(w, s, start, done);
        done := done + [s];
        locals := locals + 1;
      }
    }
  }

  lemma EmptyRecords()
    ensures Records(SymFields([])) == [] && Records(ShdrFields([])) == []
  {
  }

  /** The symbols with names of their own. */
  method WriteGlobals(w: Writer, es: entries, names: seq<name>, offsets: map<name, nat>, textIndex: seq<nat>,
                      ghost start: seq<byte>, ghost before: seq<Sym>)
    requires w.Valid() && w.ofs + 24 * |names| <= w.data.Length && names == GlobalNames(es) && Distinct(SymbolNames(es))
    requires |textIndex| == |es| && forall i :: 0 <= i < |es| ==> textIndex[i] == TextIndex(es, i)
    requires forall k :: 0 <= k < |names| ==> names[k] in offsets && offsets[names[k]] == StringOffset(names, k)
    requires w.written == start + Records(SymFields(before))
    modifies w, w.data
    ensures w.Valid() && w.ofs == old(w.ofs) + 24 * |names|
    ensures w.written == start + Records(SymFields(before + GlobalSyms(es, |names|)))
  {
    hide Writer.Valid, Records, SymFields, TextIndex, StringOffset, GlobalNames, SymbolNames, Distinct;
    assert before + GlobalSyms(es, 0) == before;
    for k := 0 to |names|
      invariant w.Valid() && w.ofs == old(w.ofs) + 24 * k
      invariant w.written == start + Records(SymFields(before + GlobalSyms(es, k)))
    {
      var i := FindFunction(es, names[k]);
      NameOfFunction(es, k, i);
      var nm := offsets[names[k]];
      var s := if i == |es| then Sym(nm, STB_GLOBAL * 16, 0, 0, 0, 0)
               else Sym(nm, STB_GLOBAL * 16 + STT_FUNC, 0, textIndex[i], 0, |es[i].text|);
      assert s == GlobalSym(es, k);
      PutSym(w, s, start, before + GlobalSyms(es, k));
      assert before + GlobalSyms(es, k + 1) == before + GlobalSyms(es, k) + [s];
    }
  }

  function GlobalSyms(es: entries, n: nat): seq<Sym>
    requires n <= |GlobalNames(es)|
  {
    seq(n, k requires 0 <= k < n => GlobalSym(es, k))
  }

  /** Where entry i's section names, blobs and relocations begin. */
  ghost predicate EntryBegins(es: entries, i: nat, nameOffset: int, blobOffset: int, relaOffset: int) {
    i <= |es| && nameOffset == SectionNameOffset(es, i) && blobOffset == BlobOffset(es, i) && relaOffset == RelaOffset(es, i)
  }

  method PutShdrIf(w: Writer, wanted: bool, h: Shdr, ghost start: seq<byte>, ghost done: seq<Shdr>)
    requires w.Valid() && (wanted ==> w.ofs + 64 <= w.data.Length) && w.written == start + Records(ShdrFields(done))
    modifies w, w.data
    ensures w.Valid() && w.ofs == old(w.ofs) + (if wanted then 64 else 0)
    ensures w.written == start + Records(ShdrFields(if wanted then done + [h] else done))
  {
    hide Writer.Valid, Records, ShdrFields;
    if wanted { PutShdr(w, h, start, done); }
  }

  /** One function's headers; returns where the next names, blobs and relocations begin. */
  method WriteEntryHeaders(w: Writer, es: entries, i: nat, shnum: nat, textIndex: nat, nameOffset0: nat, blobOffset0: nat, relaOffset0: nat,
                           ghost start: seq<byte>, ghost done: seq<Shdr>)
    returns (nameOffset: nat, blobOffset: nat, relaOffset: nat)
    requires i < |es| && w.Valid() && w.ofs + 64 * Sections(es[i]) <= w.data.Length
    requires w.written == start + Records(ShdrFields(done)) && shnum == SectionTotal(es) && textIndex == TextIndex(es, i)
    requires EntryBegins(es, i, nameOffset0, blobOffset0, relaOffset0)
    modifies w, w.data
    ensures w.Valid() && w.ofs == old(w.ofs) + 64 * Sections(es[i])
    ensures w.written == start + Records(ShdrFields(done + HeadersOf(es, i)))
    ensures EntryBegins(es, i + 1, nameOffset, blobOffset, relaOffset)
  {
    hide Writer.Valid, Records, ShdrFields, SectionNameOffset, BlobOffset, RelaOffset, SectionTotal, TextIndex, HeadersOf, EntryBegins,
         TextHeader, RelaHeader, RodataHeader, Shdr.Fields;
    var e := es[i];
    EntryValues(es, i, nameOffset0, blobOffset0, relaOffset0);
    HeadersTogether(es, i, done);
    var wantsRela, wantsRodata := e.relocs != [], e.data != [];
    nameOffset, blobOffset, relaOffset := nameOffset0, blobOffset0, relaOffset0;
    var text := Shdr(nameOffset, SHT_PROGBITS, SHF_ALLOC + SHF_EXECINSTR, e.textAddr, blobOffset, |e.text|, 0, 0, 4, 0);
    PutShdr(w, text, start, done);
    nameOffset, blobOffset := nameOffset + |e.nm| + 7, blobOffset + |e.text|;
    var relaSize := |e.relocs| * 24;
    var rela := Shdr(nameOffset, SHT_RELA, 0, 0, relaOffset, relaSize, shnum - 3, textIndex, 8, 24);
    PutShdrIf(w, wantsRela, rela, start, done + [text]);
    relaOffset := relaOffset + relaSize;
    nameOffset := if wantsRela then nameOffset + |e.nm| + 12 else nameOffset;
    var data := Shdr(nameOffset, SHT_PROGBITS, SHF_ALLOC, e.dataAddr, blobOffset, |e.data|, 0, 0, 8, 0);
    PutShdrIf(w, wantsRodata, data, start, WithRela(es, i, done + [text]));
    blobOffset := blobOffset + |e.data|;
    nameOffset := if wantsRodata then nameOffset + |e.nm| + 9 else nameOffset;
  }

  /** The headers in terms of the running offsets, and where the offsets are afterwards. */
  lemma EntryValues(es: entries, i: nat, nm: int, blob: int, rela: int)
    requires i < |es| && EntryBegins(es, i, nm, blob, rela)
    ensures var e := es[i]; var withRela := nm + |e.nm| + 7 + (if e.relocs != [] then |e.nm| + 12 else 0);
      && TextHeader(es, i) == Shdr(nm, SHT_PROGBITS, SHF_ALLOC + SHF_EXECINSTR, e.textAddr, blob, |e.text|, 0, 0, 4, 0)
      && RelaHeader(es, i) == Shdr(nm + |e.nm| + 7, SHT_RELA, 0, 0, rela, |e.relocs| * 24, SectionTotal(es) - 3, TextIndex(es, i),
                                   8, 24)
      && RodataHeader(es, i) == Shdr(withRela, SHT_PROGBITS, SHF_ALLOC, e.dataAddr, blob + |e.text|, |e.data|, 0, 0, 8, 0)
      && EntryBegins(es, i + 1, withRela + (if e.data != [] then |e.nm| + 9 else 0), blob + |e.text| + |e.data|,
                     rela + |e.relocs| * 24)
  {
    NameSteps(es, i);
    BlobSteps(es, i);
    RelaSteps(es, i);
    SectionNameLengths(es[i]);
    hide SectionNameOffset, BlobOffset, RelaOffset, SectionTotal, TextIndex, SectionNames;
  }

  function WithRela(es: entries, i: nat, done: seq<Shdr>): seq<Shdr>
    requires i < |es|
  {
    if es[i].relocs != [] then done + [RelaHeader(es, i)] else done
  }

  lemma HeadersTogether(es: entries, i: nat, done: seq<Shdr>)
    requires i < |es|
    ensures var b := WithRela(es, i, done + [TextHeader(es, i)]);
      (if es[i].data != [] then b + [RodataHeader(es, i)] else b) == done + HeadersOf(es, i)
  {
    hide TextHeader, RelaHeader, RodataHeader;
  }

  function FnDone(es: entries, n: nat, none: Shdr): seq<Shdr>
    requires n <= |es|
  {
    [none] + FnHeaders(es, n)
  }

  lemma NextHeaders(es: entries, i: nat, none: Shdr)
    requires i < |es|
    ensures FnDone(es, i, none) + HeadersOf(es, i) == FnDone(es, i + 1, none)
    ensures SectionCount(es, i + 1) == SectionCount(es, i) + Sections(es[i]) <= SectionCount(es, |es|)
  {
    hide HeadersOf;
    CountsGrow(es, |es|, i);
  }

  /** The headers of the first i entries have been written. */
  ghost predicate FnHeadersDone(es: entries, i: nat, none: Shdr, start: seq<byte>, written: seq<byte>, ofs0: int, ofs: int) {
    i <= |es| && written == start + Records(ShdrFields(FnDone(es, i, none))) && ofs == ofs0 + 64 * SectionCount(es, i)
  }

  lemma FirstHeaders(es: entries, blobEnd: nat, none: Shdr, start: seq<byte>, written: seq<byte>, ofs: int)
    requires blobEnd == BlobOffset(es, |es|) && written == start + Records(ShdrFields([none]))
    ensures EntryBegins(es, 0, 27, 64, blobEnd) && FnHeadersDone(es, 0, none, start, written, ofs, ofs)
  {
    assert Gather(Blob(es), 0) == [] && Gather(NamePieces(es), 0) == [];
    assert FnHeaders(es, 0) == [] && FnDone(es, 0, none) == [none];
    hide Gather, Blob, NamePieces, FnHeaders, Records, ShdrFields;
  }

  lemma FnHeadersStep(es: entries, i: nat, none: Shdr, start: seq<byte>, ofs0: int, ofs: int, before: seq<byte>, written: seq<byte>)
    requires i < |es| && FnHeadersDone(es, i, none, start, before, ofs0, ofs)
    requires written == start + Records(ShdrFields(FnDone(es, i, none) + HeadersOf(es, i)))
    ensures FnHeadersDone(es, i + 1, none, start, written, ofs0, ofs + 64 * Sections(es[i]))
  {
    hide SectionCount, FnDone, HeadersOf, Sections, Records, ShdrFields;
    NextHeaders(es, i, none);
  }

  lemma RoomForEntry(es: entries, i: nat, none: Shdr, start: seq<byte>, written: seq<byte>, ofs0: int, ofs: int, length: int)
    requires i < |es| && FnHeadersDone(es, i, none, start, written, ofs0, ofs) && ofs0 + 64 * SectionCount(es, |es|) <= length
    ensures ofs + 64 * Sections(es[i]) <= length && written == start + Records(ShdrFields(FnDone(es, i, none)))
  {
    hide Sections, FnDone, Records, ShdrFields;
    CountsGrow(es, |es|, i);
  }

  method WriteFnHeaders(w: Writer, es: entries, shnum: nat, textIndex: seq<nat>, blobEnd: nat, ghost start: seq<byte>, ghost none: Shdr)
    requires w.Valid() && w.ofs + 64 * SectionCount(es, |es|) <= w.data.Length
    requires w.written == start + Records(ShdrFields([none])) && shnum == SectionTotal(es) && blobEnd == BlobOffset(es, |es|)
    requires |textIndex| == |es| && forall i :: 0 <= i < |es| ==> textIndex[i] == TextIndex(es, i)
    modifies w, w.data
    ensures w.Valid() && FnHeadersDone(es, |es|, none, start, w.written, old(w.ofs), w.ofs)
  {
    hide *;
    var nameOffset, blobOffset, relaOffset := 27, 64, blobEnd;
    ghost var ofs := w.ofs;
    FirstHeaders(es, blobEnd, none, start, w.written, ofs);
    for i := 0 to |es|
      invariant w.Valid() && FnHeadersDone(es, i, none, start, w.written, ofs, w.ofs)
      invariant EntryBegins(es, i, nameOffset, blobOffset, relaOffset)
    {
      ghost var before, prior := w.written, w.ofs;
      RoomForEntry(es, i, none, start, before, ofs, prior, w.data.Length);
      nameOffset, blobOffset, relaOffset := WriteEntryHeaders(w, es, i, shnum, textIndex[i], nameOffset, blobOffset, relaOffset,
        start, FnDone(es, i, none));
      FnHeadersStep(es, i, none, start, ofs, prior, before, w.written);
    }
  }

  lemma HeadersMade(es: entries, none: Shdr, symtab: Shdr, strtab: Shdr, shstrtab: Shdr)
    requires none == Shdr(0, SHT_NULL, 0, 0, 0, 0, 0, 0, 0, 0)
    requires symtab == Shdr(1, SHT_SYMTAB, 0, 0, SymtabOffset(es), SymbolTotal(es) * 24, SectionTotal(es) - 2,
                            1 + |LocalSyms(es, |es|)|, 8, 24)
    requires strtab == Shdr(19, SHT_STRTAB, 0, 0, StrtabOffset(es), StringOffset(GlobalNames(es), |GlobalNames(es)|), 0, 0, 1, 0)
    requires shstrtab == Shdr(9, SHT_STRTAB, 0, 0, ShstrtabOffset(es), SectionNameOffset(es, |es|), 0, 0, 1, 0)
    ensures [none] + FnHeaders(es, |es|) + [symtab] + [strtab] + [shstrtab] == Headers(es)
  {
    hide FnHeaders, SymtabOffset, StrtabOffset, ShstrtabOffset, StringOffset, GlobalNames, LocalSyms, SymbolTotal, SectionTotal,
         SectionNameOffset;
    assert TableHeaders(es) == [symtab, strtab, shstrtab];
  }

  /** The section headers: none, those of the functions, those of the tables. */
  method WriteHeaders(w: Writer, es: entries, shnum: nat, locals: nat, nsyms: nat, blobEnd: nat, symtabOffset: nat, strtabOffset: nat,
                      shstrtabOffset: nat, strtabSize: nat, shstrtabSize: nat, textIndex: seq<nat>)
    requires w.Valid() && w.ofs + 64 * SectionTotal(es) <= w.data.Length
    requires shnum == SectionTotal(es) && locals == 1 + |LocalSyms(es, |es|)| && nsyms == SymbolTotal(es) && blobEnd == BlobOffset(es, |es|)
    requires symtabOffset == SymtabOffset(es) && strtabOffset == StrtabOffset(es) && shstrtabOffset == ShstrtabOffset(es)
    requires strtabSize == StringOffset(GlobalNames(es), |GlobalNames(es)|) && shstrtabSize == SectionNameOffset(es, |es|)
    requires |textIndex| == |es| && forall i :: 0 <= i < |es| ==> textIndex[i] == TextIndex(es, i)
    modifies w, w.data
    ensures w.Valid() && w.ofs == old(w.ofs) + 64 * SectionTotal(es)
    ensures w.written == old(w.written) + Records(ShdrFields(Headers(es)))
  {
    ghost var start := w.written;
    EmptyRecords();
    assert SectionTotal(es) == SectionCount(es, |es|) + 4;
    var none := Shdr(0, SHT_NULL, 0, 0, 0, 0, 0, 0, 0, 0);
    var symtab := Shdr(1, SHT_SYMTAB, 0, 0, symtabOffset, nsyms * 24, shnum - 2, locals, 8, 24);
    var strtab := Shdr(19, SHT_STRTAB, 0, 0, strtabOffset, strtabSize, 0, 0, 1, 0);
    var shstrtab := Shdr(9, SHT_STRTAB, 0, 0, shstrtabOffset, shstrtabSize, 0, 0, 1, 0);
    ghost var fns := FnHeaders(es, |es|);
    hide Writer.Valid, Records, ShdrFields, FnHeaders, SymtabOffset, StrtabOffset, ShstrtabOffset, StringOffset, GlobalNames,
         LocalSyms, SymbolTotal, TextIndex, SectionTotal, SectionCount, BlobOffset, SectionNameOffset;
    hide Headers, Shdr.Fields;
    HeadersMade(es, none, symtab, strtab, shstrtab);
    PutShdr(w, none, start, []);
    assert [] + [none] == [none];
    WriteFnHeaders(w, es, shnum, textIndex, blobEnd, start, none);
    PutShdr(w, symtab, start, [none] + fns);
    PutShdr(w, strtab, start, [none] + fns + [symtab]);
    PutShdr(w, shstrtab, start, [none] + fns + [symtab] + [strtab]);
  }

  // ----- the file

  method StringsSize(names: seq<name>) returns (size: nat)
    ensures size == StringOffset(names, |names|)
  {
    size := 1;
    for k := 0 to |names|
      invariant size == StringOffset(names, k)
    {
      assert StringPieces(names)(k) == names[k] + [0];
      size := size + |names[k]| + 1;
    }
  }

  method WriteSymbols(w: Writer, es: entries, names: seq<name>, offsets: map<name, nat>, textIndex: seq<nat>, rodataIndex: seq<nat>)
    returns (locals: nat)
    requires w.Valid() && w.ofs + 24 * SymbolTotal(es) <= w.data.Length && names == GlobalNames(es) && Distinct(SymbolNames(es))
    requires Indexed(es, |es|, textIndex, rodataIndex)
    requires forall k :: 0 <= k < |names| ==> names[k] in offsets && offsets[names[k]] == StringOffset(names, k)
    modifies w, w.data
    ensures w.Valid() && w.ofs == old(w.ofs) + 24 * SymbolTotal(es) && locals == 1 + |LocalSyms(es, |es|)|
    ensures w.written == old(w.written) + Records(SymFields(Syms(es)))
  {
    ghost var start := w.written;
    LocalSymsLength(es, |es|);
    assert SymbolTotal(es) == 1 + |LocalSyms(es, |es|)| + |names|;
    hide Writer.Valid, Records, SymFields, TextIndex, RodataIndex, StringOffset, GlobalNames, SymbolNames, LocalSyms, Distinct, LocalNames;
    locals := WriteLocals(w, es, textIndex, rodataIndex);
    WriteGlobals(w, es, names, offsets, textIndex, start, [Sym(0, 0, 0, 0, 0, 0)] + LocalSyms(es, |es|));
    assert Syms(es) == [Sym(0, 0, 0, 0, 0, 0)] + LocalSyms(es, |es|) + GlobalSyms(es, |names|);
  }

  /** The parts in the order they are written. */
  lemma WrittenParts(es: entries, a: seq<byte>, b: seq<byte>, c: seq<byte>, d: seq<byte>, e: seq<byte>, f: seq<byte>, g: seq<byte>)
    requires a == Stored(Ehdr(es)) && b == Gather(Blob(es), |es|) && c == Records(Relas(es, |es|)) && d == NameTable(es)
    requires e == StringTable(GlobalNames(es)) && f == Records(SymFields(Syms(es))) && g == Records(ShdrFields(Headers(es)))
    ensures [] + a + b + c + d + e + f + g == Image(es)
  {
    hide Stored, Gather, Blob, Records, Relas, NameTable, StringTable, GlobalNames, SymFields, Syms, ShdrFields, Headers, Ehdr;
    assert [] + a == a;
  }

  /** The offsets a writer computes from its measurements. */
  lemma MeasuredOffsets(es: entries, names: seq<name>, nsyms: nat, blobSize: nat, relaSize: nat, shstrtabSize: nat, strtabSize: nat)
    requires names == GlobalNames(es) && nsyms == SymbolTotal(es) && strtabSize == StringOffset(names, |names|)
    requires blobSize == |Gather(Blob(es), |es|)| && relaSize == 24 * RelocCount(es, |es|)
    requires shstrtabSize == SectionNameOffset(es, |es|)
    ensures 64 + blobSize == BlobOffset(es, |es|)
    ensures 64 + blobSize + relaSize == ShstrtabOffset(es)
    ensures 64 + blobSize + relaSize + shstrtabSize == StrtabOffset(es)
    ensures 64 + blobSize + relaSize + shstrtabSize + strtabSize == SymtabOffset(es)
    ensures 64 + blobSize + relaSize + shstrtabSize + strtabSize + nsyms * 24 == HeadersOffset(es)
  {
  }

  /** Writes everything after the measuring pass; the buffer is filled exactly. */
  method Fill(es: entries, symbols: map<name, nat>, names: seq<name>, nsyms: nat, blobSize: nat, relaSize: nat, shstrtabSize: nat,
              shnum: nat, textIndex: seq<nat>, rodataIndex: seq<nat>, strtabSize: nat) returns (ret: array<byte>)
    requires IndexMap(symbols, SymbolNames(es)) && Distinct(SymbolNames(es)) && Distinct(GlobalNames(es))
    requires names == GlobalNames(es) && nsyms == SymbolTotal(es) && strtabSize == StringOffset(names, |names|)
    requires blobSize == |Gather(Blob(es), |es|)| && relaSize == 24 * RelocCount(es, |es|)
    requires shstrtabSize == SectionNameOffset(es, |es|) && shnum == SectionTotal(es) && Indexed(es, |es|, textIndex, rodataIndex)
    ensures ret[..] == Image(es)
  {
    hide Writer.Valid, Image, Records, Stored, Gather, SymbolNames, GlobalNames, IndexMap, SectionTotal, RelocCount, Distinct, Syms,
         Headers, SymFields, ShdrFields, NameTable, StringTable, LocalSyms, EhdrFields, StringOffset, SectionNameOffset, Relas, Blob,
         SymbolTotal, BlobOffset, ShstrtabOffset, StrtabOffset, SymtabOffset, HeadersOffset, TextIndex, RodataIndex;
    var shstrtabOffset := 64 + blobSize + relaSize;
    var strtabOffset := shstrtabOffset + shstrtabSize;
    var symtabOffset := strtabOffset + strtabSize;
    var shoff := symtabOffset + nsyms * 24;
    MeasuredOffsets(es, names, nsyms, blobSize, relaSize, shstrtabSize, strtabSize);
    var header := Stored(EhdrFields(shoff, shnum, shnum - 1));
    assert header == Stored(Ehdr(es));
    PartLengths(es);
    var size := shoff + shnum * 64;
    var w := new Writer(size);
    w.Put(header);
    WriteBlobs(w, es);
    WriteRelas(w, es, symbols);
    WriteNames(w, es);
    var offsets := WriteStrings(w, names);
    var locals := WriteSymbols(w, es, names, offsets, textIndex, rodataIndex);
    WriteHeaders(w, es, shnum, locals, nsyms, 64 + blobSize, symtabOffset, strtabOffset, shstrtabOffset, strtabSize, shstrtabSize,
      textIndex);
    ret := w.data;
    WrittenParts(es, header, Gather(Blob(es), |es|), Records(Relas(es, |es|)), NameTable(es), StringTable(GlobalNames(es)),
      Records(SymFields(Syms(es))), Records(ShdrFields(Headers(es))));
    FilledExactly(w);
  }

  lemma FilledExactly(w: Writer)
    requires w.Valid() && w.ofs == w.data.Length
    ensures w.data[..] == w.written
  {
  }

  /** The object file of some compiled functions. */
  method EmitElf(es: entries) returns (ret: array<byte>)
    requires WellNamed(es)
    ensures ret[..] == Image(es)
  {
    hide WellNamed, IndexMap, SymbolNames, GlobalNames, Image, RelocCount, SectionTotal, SectionNameOffset, TextIndex, RodataIndex,
         StringOffset, Gather, Blob, SymbolTotal, LocalNames, FnNames;
    var symbols, nsyms := CollectLocals(es);
    symbols, nsyms := CollectFunctions(es, symbols, nsyms);
    FunctionCount(es);
    var names;
    symbols, names, nsyms := CollectReferences(es, symbols, nsyms);
    var blobSize, relaSize, shstrtabSize, shnum, textIndex, rodataIndex := Measure(es);
    var strtabSize := StringsSize(names);
    NumberedDistinct(symbols, SymbolNames(es));
    GlobalsDistinct(es);
    ret := Fill(es, symbols, names, nsyms, blobSize, relaSize, shstrtabSize, shnum, textIndex, rodataIndex, strtabSize);
  }

  lemma NumberedDistinct(m: map<name, nat>, ns: seq<name>)
    requires IndexMap(m, ns)
    ensures Distinct(ns)
  {
  }

  lemma FunctionCount(es: entries)
    ensures |FnNames(es)| == |es|
  {
  }
}
