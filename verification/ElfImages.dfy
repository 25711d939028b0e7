/** ELF images laid out field by field, and what the parser makes of them. The order and the widths
    of the fields are those of the ELF Header, the Section Header and the Program Header in chapters
    4 and 5 of the System V gABI. */
module ElfImages {
  import opened Text
  import opened AotNotes

  /** The header behind its first 16 bytes. */
  datatype ElfHeader = ElfHeader(kind: nat, machine: nat, version: nat, entry: nat, phoff: nat, shoff: nat, flags: nat,
                                 ehsize: nat, phentsize: nat, phnum: nat, shentsize: nat, shnum: nat, shstrndx: nat)

  datatype ProgramHeader = ProgramHeader(kind: nat, flags: nat, offset: nat, vaddr: nat, paddr: nat, filesz: nat,
                                         memsz: nat, align: nat)

  /** The fields of a section header up to the one that can hold a count. */
  datatype SectionHeader = SectionHeader(name: nat, kind: nat, flags: nat, addr: nat, offset: nat, size: nat,
                                         link: nat, info: nat)

  /** The width of addresses and offsets. */
  function Wide(elf64: bool): nat { if elf64 then 8 else 4 }

  /** Magic number, class, little-endian data, and ten bytes that say nothing here. */
  function EncodeIdent(elf64: bool, rest: Bytes): Bytes {
    [0x7F, 0x45, 0x4C, 0x46, if elf64 then 2 else 1, 1] + rest
  }

  function EncodeHeader(elf64: bool, rest: Bytes, h: ElfHeader): Bytes {
    var w := Wide(elf64);
    EncodeIdent(elf64, rest)
    + ToLE(h.kind, 2) + ToLE(h.machine, 2) + ToLE(h.version, 4)
    + ToLE(h.entry, w) + ToLE(h.phoff, w) + ToLE(h.shoff, w)
    + ToLE(h.flags, 4) + ToLE(h.ehsize, 2)
    + ToLE(h.phentsize, 2) + ToLE(h.phnum, 2)
    + ToLE(h.shentsize, 2) + ToLE(h.shnum, 2) + ToLE(h.shstrndx, 2)
  }

  /** The two classes order the fields differently. */
  function EncodePhdr(elf64: bool, p: ProgramHeader): Bytes {
    if elf64 then
      ToLE(p.kind, 4) + ToLE(p.flags, 4) + ToLE(p.offset, 8) + ToLE(p.vaddr, 8) + ToLE(p.paddr, 8)
      + ToLE(p.filesz, 8) + ToLE(p.memsz, 8) + ToLE(p.align, 8)
    else
      ToLE(p.kind, 4) + ToLE(p.offset, 4) + ToLE(p.vaddr, 4) + ToLE(p.paddr, 4)
      + ToLE(p.filesz, 4) + ToLE(p.memsz, 4) + ToLE(p.flags, 4) + ToLE(p.align, 4)
  }

  function EncodeShdr(elf64: bool, s: SectionHeader): Bytes {
    var w := Wide(elf64);
    ToLE(s.name, 4) + ToLE(s.kind, 4) + ToLE(s.flags, w) + ToLE(s.addr, w) + ToLE(s.offset, w)
    + ToLE(s.size, w) + ToLE(s.link, 4) + ToLE(s.info, 4)
  }

  predicate At(data: Bytes, offset: nat, bytes: Bytes) {
    offset + |bytes| <= |data| && data[offset..offset + |bytes|] == bytes
  }

  lemma Cut(data: Bytes, offset: nat, a: Bytes, b: Bytes)
    requires At(data, offset, a + b)
    ensures At(data, offset, a) && At(data, offset + |a|, b)
  {
    assert data[offset..offset + |a|] == (a + b)[..|a|];
    assert data[offset + |a|..offset + |a| + |b|] == (a + b)[|a|..];
  }

  /** The numbers of the header that the parser looks at are small enough for their fields. */
  predicate HeaderFits(elf64: bool, rest: Bytes, h: ElfHeader) {
    && |rest| == 10 && h.phoff < Pow256(Wide(elf64)) && h.shoff < Pow256(Wide(elf64))
    && h.phentsize < 65536 && h.phnum < 65536
  }

  /** An image that begins with this header. */
  predicate Begins(data: Bytes, elf64: bool, rest: Bytes, h: ElfHeader) {
    HeaderFits(elf64, rest, h) && At(data, 0, EncodeHeader(elf64, rest, h))
  }

  lemma HeaderFields(data: Bytes, elf64: bool, rest: Bytes, h: ElfHeader)
    requires |rest| == 10 && At(data, 0, EncodeHeader(elf64, rest, h))
    ensures var w := Wide(elf64);
            && |data| >= 40 + 3 * w && At(data, 0, EncodeIdent(elf64, rest))
            && At(data, 24 + w, ToLE(h.phoff, w)) && At(data, 24 + 2 * w, ToLE(h.shoff, w))
            && At(data, 30 + 3 * w, ToLE(h.phentsize, 2)) && At(data, 32 + 3 * w, ToLE(h.phnum, 2))
  {
    var w := Wide(elf64);
    var a0 := EncodeIdent(elf64, rest);
    var a1 := a0 + ToLE(h.kind, 2);
    var a2 := a1 + ToLE(h.machine, 2);
    var a3 := a2 + ToLE(h.version, 4);
    var a4 := a3 + ToLE(h.entry, w);
    var a5 := a4 + ToLE(h.phoff, w);
    var a6 := a5 + ToLE(h.shoff, w);
    var a7 := a6 + ToLE(h.flags, 4);
    var a8 := a7 + ToLE(h.ehsize, 2);
    var a9 := a8 + ToLE(h.phentsize, 2);
    var a10 := a9 + ToLE(h.phnum, 2);
    var a11 := a10 + ToLE(h.shentsize, 2);
    var a12 := a11 + ToLE(h.shnum, 2);
    Cut(data, 0, a12, ToLE(h.shstrndx, 2));
    Cut(data, 0, a11, ToLE(h.shnum, 2));
    Cut(data, 0, a10, ToLE(h.shentsize, 2));
    Cut(data, 0, a9, ToLE(h.phnum, 2));
    Cut(data, 0, a8, ToLE(h.phentsize, 2));
    Cut(data, 0, a7, ToLE(h.ehsize, 2));
    Cut(data, 0, a6, ToLE(h.flags, 4));
    Cut(data, 0, a5, ToLE(h.shoff, w));
    Cut(data, 0, a4, ToLE(h.phoff, w));
    Cut(data, 0, a3, ToLE(h.entry, w));
    Cut(data, 0, a2, ToLE(h.version, 4));
    Cut(data, 0, a1, ToLE(h.machine, 2));
    Cut(data, 0, a0, ToLE(h.kind, 2));
  }

  lemma PhdrFields(data: Bytes, o: nat, elf64: bool, p: ProgramHeader)
    requires At(data, o, EncodePhdr(elf64, p))
    ensures At(data, o, ToLE(p.kind, 4)) && o + (if elf64 then 56 else 32) <= |data|
    ensures elf64 ==> At(data, o + 8, ToLE(p.offset, 8)) && At(data, o + 32, ToLE(p.filesz, 8))
                      && At(data, o + 48, ToLE(p.align, 8))
    ensures !elf64 ==> At(data, o + 4, ToLE(p.offset, 4)) && At(data, o + 16, ToLE(p.filesz, 4))
                       && At(data, o + 28, ToLE(p.align, 4))
  {
    if elf64 { PhdrFields64(data, o, p); } else { PhdrFields32(data, o, p); }
  }

  lemma PhdrFields64(data: Bytes, o: nat, p: ProgramHeader)
    requires At(data, o, EncodePhdr(true, p))
    ensures At(data, o, ToLE(p.kind, 4)) && At(data, o + 8, ToLE(p.offset, 8)) && At(data, o + 32, ToLE(p.filesz, 8))
    ensures At(data, o + 48, ToLE(p.align, 8)) && o + 56 <= |data|
  {
    var a0 := ToLE(p.kind, 4);
    var a1 := a0 + ToLE(p.flags, 4);
    var a2 := a1 + ToLE(p.offset, 8);
    var a3 := a2 + ToLE(p.vaddr, 8);
    var a4 := a3 + ToLE(p.paddr, 8);
    var a5 := a4 + ToLE(p.filesz, 8);
    var a6 := a5 + ToLE(p.memsz, 8);
    Cut(data, o, a6, ToLE(p.align, 8));
    Cut(data, o, a5, ToLE(p.memsz, 8));
    Cut(data, o, a4, ToLE(p.filesz, 8));
    Cut(data, o, a3, ToLE(p.paddr, 8));
    Cut(data, o, a2, ToLE(p.vaddr, 8));
    Cut(data, o, a1, ToLE(p.offset, 8));
    Cut(data, o, a0, ToLE(p.flags, 4));
  }

  lemma PhdrFields32(data: Bytes, o: nat, p: ProgramHeader)
    requires At(data, o, EncodePhdr(false, p))
    ensures At(data, o, ToLE(p.kind, 4)) && At(data, o + 4, ToLE(p.offset, 4)) && At(data, o + 16, ToLE(p.filesz, 4))
    ensures At(data, o + 28, ToLE(p.align, 4)) && o + 32 <= |data|
  {
    var a0 := ToLE(p.kind, 4);
    var a1 := a0 + ToLE(p.offset, 4);
    var a2 := a1 + ToLE(p.vaddr, 4);
    var a3 := a2 + ToLE(p.paddr, 4);
    var a4 := a3 + ToLE(p.filesz, 4);
    var a5 := a4 + ToLE(p.memsz, 4);
    var a6 := a5 + ToLE(p.flags, 4);
    Cut(data, o, a6, ToLE(p.align, 4));
    Cut(data, o, a5, ToLE(p.flags, 4));
    Cut(data, o, a4, ToLE(p.memsz, 4));
    Cut(data, o, a3, ToLE(p.filesz, 4));
    Cut(data, o, a2, ToLE(p.paddr, 4));
    Cut(data, o, a1, ToLE(p.vaddr, 4));
    Cut(data, o, a0, ToLE(p.offset, 4));
  }

  lemma ShdrField(data: Bytes, o: nat, elf64: bool, s: SectionHeader)
    requires At(data, o, EncodeShdr(elf64, s))
    ensures At(data, o + 12 + 4 * Wide(elf64), ToLE(s.info, 4))
  {
    var w := Wide(elf64);
    Cut(data, o, ToLE(s.name, 4) + ToLE(s.kind, 4) + ToLE(s.flags, w) + ToLE(s.addr, w) + ToLE(s.offset, w)
                 + ToLE(s.size, w) + ToLE(s.link, 4), ToLE(s.info, 4));
  }

  lemma Small()
    ensures Pow256(2) == 65536
  {
    assert Pow256(0) == 1 && Pow256(1) == 256;
  }

  lemma IdentIs(data: Bytes, elf64: bool, rest: Bytes)
    requires |rest| == 10 && At(data, 0, EncodeIdent(elf64, rest))
    ensures IsElf(data) && data[4] == if elf64 then 2 else 1
  {
    assert forall i | 0 <= i < 16 :: data[i] == EncodeIdent(elf64, rest)[i];
    assert data[..4] == MAGIC;
  }

  // ---- What is looked for ----

  /** A segment and, in a note segment, its notes; of the last one's padding a part may be missing. */
  datatype Loaded = Loaded(header: ProgramHeader, notes: seq<Note>, lastPad: nat)

  predicate NotesLaid(data: Bytes, l: Loaded) {
    l.header.kind == 4 ==>
      && l.header.offset + l.header.filesz <= |data| && AllEncodable(l.notes)
      && data[l.header.offset..l.header.offset + l.header.filesz]
         == EncodeNotes(l.notes, if l.header.align == 8 then 8 else 4, l.lastPad)
  }

  predicate PhdrFits(elf64: bool, p: ProgramHeader) {
    && p.kind < Pow256(4) && p.offset < Pow256(Wide(elf64)) && p.filesz < Pow256(Wide(elf64))
    && p.align < Pow256(Wide(elf64))
  }

  /** The program headers, one after the other at distances of their size in the header. */
  predicate TableLaid(data: Bytes, elf64: bool, h: ElfHeader, loaded: seq<Loaded>) {
    && (loaded != [] ==> h.phentsize >= (if elf64 then 56 else 32) && h.phoff + |loaded| * h.phentsize <= |data|)
    && (forall i | 0 <= i < |loaded| :: EntryLaid(data, elf64, h, loaded, i))
  }

  predicate EntryLaid(data: Bytes, elf64: bool, h: ElfHeader, loaded: seq<Loaded>, i: nat)
    requires i < |loaded|
  {
    PhdrFits(elf64, loaded[i].header) && At(data, h.phoff + i * h.phentsize, EncodePhdr(elf64, loaded[i].header))
  }

  /** How many there are: in the header or, from 0xFFFF on, in the first section header. */
  ghost predicate CountLaid(data: Bytes, elf64: bool, h: ElfHeader, count: nat) {
    && h.phnum == (if count < 0xFFFF then count else 0xFFFF)
    && (count >= 0xFFFF ==>
          count < Pow256(4) && exists s: SectionHeader :: s.info == count && At(data, h.shoff, EncodeShdr(elf64, s)))
  }

  ghost predicate Laid(data: Bytes, elf64: bool, rest: Bytes, h: ElfHeader, loaded: seq<Loaded>) {
    && Begins(data, elf64, rest, h) && CountLaid(data, elf64, h, |loaded|)
    && TableLaid(data, elf64, h, loaded) && forall l <- loaded :: NotesLaid(data, l)
  }

  /** The descriptions of the notes of owner "Qore" and the record's type. */
  function Sought(ns: seq<Note>): seq<Bytes> {
    if ns == [] then []
    else (if ns[0].name == [0x51, 0x6F, 0x72, 0x65, 0] && ns[0].kind == 0x494D4151 then [ns[0].desc] else [])
         + Sought(ns[1..])
  }

  function SoughtIn(loaded: seq<Loaded>): seq<Bytes> {
    if loaded == [] then []
    else
      var last := loaded[|loaded| - 1];
      SoughtIn(loaded[..|loaded| - 1]) + if last.header.kind == 4 then Sought(last.notes) else []
  }

  lemma {:induction false} SoughtIsWanted(ns: seq<Note>)
    ensures Sought(ns) == Wanted(ns)
  {
    if ns != [] { SoughtIsWanted(ns[1..]); }
  }

  function SegmentOf(l: Loaded): Segment {
    Segment(Phdr(l.header.kind, l.header.offset, l.header.filesz, l.header.align), l.notes, l.lastPad)
  }

  function SegmentsOf(loaded: seq<Loaded>): (segments: seq<Segment>)
    ensures |segments| == |loaded|
  {
    seq(|loaded|, i requires 0 <= i < |loaded| => SegmentOf(loaded[i]))
  }

  lemma {:induction false} SoughtInIsWanted(loaded: seq<Loaded>)
    ensures SoughtIn(loaded) == WantedIn(SegmentsOf(loaded))
  {
    if loaded != [] {
      var n := |loaded| - 1;
      assert SegmentsOf(loaded)[..n] == SegmentsOf(loaded[..n]);
      SoughtInIsWanted(loaded[..n]);
      SoughtIsWanted(loaded[n].notes);
    }
  }

  // ---- The parser undoes the layout ----

  lemma LaidHeader(data: Bytes, elf64: bool, rest: Bytes, h: ElfHeader, count: nat)
    requires Begins(data, elf64, rest, h) && CountLaid(data, elf64, h, count)
    requires count > 0 ==> h.phentsize >= if elf64 then 56 else 32
    ensures IsElf(data) && data[4] == (if elf64 then 2 else 1)
    ensures HeaderHolds(data, FormatOf(elf64), h.phoff, h.phentsize, count)
  {
    HeaderFields(data, elf64, rest, h);
    IdentIs(data, elf64, rest);
    Small();
    var f := FormatOf(elf64);
    if count >= 0xFFFF {
      var s: SectionHeader :| s.info == count && At(data, h.shoff, EncodeShdr(elf64, s));
      ShdrField(data, h.shoff, elf64, s);
      assert FieldAt(data, f.shoff, f.width, h.shoff) && FieldAt(data, h.shoff + f.info, 4, count);
    }
  }

  lemma LaidEntry(data: Bytes, elf64: bool, entry: nat, l: Loaded)
    requires PhdrFits(elf64, l.header) && At(data, entry, EncodePhdr(elf64, l.header))
    ensures EntryHolds(data, FormatOf(elf64), entry, SegmentOf(l).phdr)
  {
    PhdrFields(data, entry, elf64, l.header);
  }

  lemma LaidNotes(data: Bytes, l: Loaded)
    requires NotesLaid(data, l)
    ensures SegmentHolds(data, SegmentOf(l))
  {
  }

  lemma LaidTable(data: Bytes, elf64: bool, h: ElfHeader, loaded: seq<Loaded>, f: Format, table: seq<Phdr>)
    requires TableLaid(data, elf64, h, loaded) && f == FormatOf(elf64) && table == PhdrsOf(SegmentsOf(loaded))
    ensures TableHolds(data, f, h.phoff, h.phentsize, table)
  {
    RowsAreProduct(h.phentsize, |loaded|);
    forall i | 0 <= i < |table| ensures RowHolds(data, f, h.phoff, h.phentsize, table, i) {
      LaidRow(data, elf64, h, loaded, i);
    }
  }

  lemma LaidRow(data: Bytes, elf64: bool, h: ElfHeader, loaded: seq<Loaded>, i: nat)
    requires TableLaid(data, elf64, h, loaded) && i < |loaded|
    ensures EntryHolds(data, FormatOf(elf64), h.phoff + Rows(h.phentsize, i), SegmentOf(loaded[i]).phdr)
  {
    RowsAreProduct(h.phentsize, i);
    assert EntryLaid(data, elf64, h, loaded, i);
    LaidEntry(data, elf64, h.phoff + i * h.phentsize, loaded[i]);
  }

  lemma AllNotesHold(data: Bytes, loaded: seq<Loaded>, segments: seq<Segment>)
    requires segments == SegmentsOf(loaded) && forall l <- loaded :: NotesLaid(data, l)
    ensures forall s <- segments :: SegmentHolds(data, s)
  {
    forall s <- segments ensures SegmentHolds(data, s) {
      var i :| 0 <= i < |loaded| && segments[i] == s;
      LaidNotes(data, loaded[i]);
    }
  }

  /** For every image laid out like this the parser returns the one description that is sought, empty
      bytes when there is none, and fails just when there are several. */
  lemma ParsesLaid(data: Bytes, elf64: bool, rest: Bytes, h: ElfHeader, loaded: seq<Loaded>)
    requires Laid(data, elf64, rest, h, loaded)
    ensures var records := SoughtIn(loaded);
            Parse(data) ==
            if |records| == 0 then Record([]) else if |records| == 1 then Record(records[0]) else ValueError
  {
    var f, segments := FormatOf(elf64), SegmentsOf(loaded);
    LaidHeader(data, elf64, rest, h, |loaded|);
    LaidTable(data, elf64, h, loaded, f, PhdrsOf(segments));
    AllNotesHold(data, loaded, segments);
    SoughtInIsWanted(loaded);
    ParsesHolding(data, elf64, h, segments);
  }

  lemma ParsesHolding(data: Bytes, elf64: bool, h: ElfHeader, segments: seq<Segment>)
    requires IsElf(data) && data[4] == (if elf64 then 2 else 1)
    requires HeaderHolds(data, FormatOf(elf64), h.phoff, h.phentsize, |segments|)
    requires TableHolds(data, FormatOf(elf64), h.phoff, h.phentsize, PhdrsOf(segments))
    requires forall s <- segments :: SegmentHolds(data, s)
    ensures Parse(data) == OneRecord(WantedIn(segments))
  {
    ParsesImage(data, elf64, h.phoff, h.phentsize, segments);
  }

  // ---- What is no such image ----

  /** A little-endian ELF file of one of the two classes. */
  predicate LooksLikeElf(data: Bytes) {
    |data| >= 16 && data[..4] == [0x7F, 0x45, 0x4C, 0x46] && data[4] in {1, 2} && data[5] == 1
  }

  /** Anything else has no record; a header that is cut off is an error. */
  lemma NoHeader(data: Bytes)
    ensures !LooksLikeElf(data) ==> Parse(data) == Record([])
    ensures LooksLikeElf(data) && |data| < (if data[4] == 2 then 64 else 52) ==> Parse(data) == ValueError
  {
  }

  /** The header as the parser reads it. */
  lemma HeaderRead(data: Bytes, elf64: bool, rest: Bytes, h: ElfHeader)
    requires Begins(data, elf64, rest, h)
    ensures var f := FormatOf(elf64);
            && Parse(data) == ParseHeader(data, f) && |data| >= f.headerSize
            && Uint(data, f.phoff, f.width) == h.phoff && Uint(data, f.shoff, f.width) == h.shoff
            && Uint(data, f.phentsize, 2) == h.phentsize && Uint(data, f.phnum, 2) == h.phnum
  {
    HeaderFields(data, elf64, rest, h);
    IdentIs(data, elf64, rest);
    Small();
    var f := FormatOf(elf64);
    FieldReads(data, f.phoff, f.width, h.phoff);
    FieldReads(data, f.shoff, f.width, h.shoff);
    FieldReads(data, f.phentsize, 2, h.phentsize);
    FieldReads(data, f.phnum, 2, h.phnum);
  }

  /** Without program headers there is no record; entries that are too small, a table that is cut off,
      or a first section header that is cut off when it is needed, are errors. */
  lemma CutTable(data: Bytes, elf64: bool, rest: Bytes, h: ElfHeader)
    requires Begins(data, elf64, rest, h)
    ensures h.phnum == 0 ==> Parse(data) == Record([])
    ensures 0 < h.phnum < 0xFFFF
            && (h.phentsize < (if elf64 then 56 else 32) || h.phoff + h.phnum * h.phentsize > |data|) ==>
              Parse(data) == ValueError
    ensures h.phnum == 0xFFFF && h.shoff + (if elf64 then 48 else 32) > |data| ==> Parse(data) == ValueError
  {
    HeaderRead(data, elf64, rest, h);
    RowsAreProduct(h.phentsize, h.phnum);
  }

  lemma {:induction false} OneCutOff(data: Bytes, table: seq<Phdr>, i: nat)
    requires i < |table| && SegmentRecords(data, table[i]) == None
    ensures TableRecords(data, table) == None
  {
    var n := |table| - 1;
    if i < n {
      OneCutOff(data, table[..n], i);
    }
  }

  /** So is a note segment that is cut off, whatever the others hold. */
  lemma CutSegment(data: Bytes, elf64: bool, rest: Bytes, h: ElfHeader, loaded: seq<Loaded>, i: nat)
    requires Begins(data, elf64, rest, h) && CountLaid(data, elf64, h, |loaded|) && TableLaid(data, elf64, h, loaded)
    requires i < |loaded| && loaded[i].header.kind == 4
    requires loaded[i].header.offset + loaded[i].header.filesz > |data|
    ensures Parse(data) == ValueError
  {
    var f, table := FormatOf(elf64), PhdrsOf(SegmentsOf(loaded));
    LaidHeader(data, elf64, rest, h, |loaded|);
    LaidTableReads(data, elf64, h, loaded, f, table);
    TableCutOff(data, f, h, table, i);
  }

  lemma LaidTableReads(data: Bytes, elf64: bool, h: ElfHeader, loaded: seq<Loaded>, f: Format, table: seq<Phdr>)
    requires TableLaid(data, elf64, h, loaded) && f == FormatOf(elf64) && table == PhdrsOf(SegmentsOf(loaded))
    requires loaded != []
    ensures h.phentsize >= f.entrySize && h.phoff + Rows(h.phentsize, |table|) <= |data|
    ensures Table(data, f, h.phoff, h.phentsize, |table|) == table
  {
    RowsAreProduct(h.phentsize, |table|);
    LaidTable(data, elf64, h, loaded, f, table);
    TableReads(data, f, h.phoff, h.phentsize, table);
  }

  lemma TableCutOff(data: Bytes, f: Format, h: ElfHeader, table: seq<Phdr>, i: nat)
    requires Fits(f) && h.phentsize >= f.entrySize && h.phoff + Rows(h.phentsize, |table|) <= |data|
    requires HeaderHolds(data, f, h.phoff, h.phentsize, |table|)
    requires Table(data, f, h.phoff, h.phentsize, |table|) == table
    requires i < |table| && SegmentRecords(data, table[i]) == None
    ensures ParseHeader(data, f) == ValueError
  {
    HeaderReads(data, f, h.phoff, h.phentsize, |table|);
    OneCutOff(data, table, i);
  }
}
