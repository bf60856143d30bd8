/**
 The ELF builder: from the sections to section names, offsets, section headers and the pieces of the
 file, and what a reader of the written file finds.
 */
module ElfBuilder {
  import opened Bytes
  import opened Streams
  import opened Chunks
  import opened ElfFormat
  import opened ElfLayout
  import ElfStripper
  import OatWriter

  // ----- sections -----

  datatype Link = NoLink | LinkTo(position: nat)

  datatype Section =
    Section(name: seq<Byte>, kind: Word32, flags: Word32, loaded: bool, info: Word32, align: Word32, entsize: Word32,
            link: Link, data: Data)

  const PAGE: nat := 4096
  const BASE: nat := 212 // file header and five program headers

  // ----- section names -----

  /** The names of the first `n` sections, each closed by a zero, after an empty name. */
  function NameTable(names: seq<seq<Byte>>, n: nat): (table: seq<Byte>)
    requires n <= |names|
    ensures |table| >= 1
  {
    if n == 0 then [0] else NameTable(names, n - 1) + names[n - 1] + [0]
  }

  /** `AssignSectionStr` for all sections: each name goes to the end of the table. */
  method AssignNames(names: seq<seq<Byte>>) returns (offsets: seq<nat>, table: seq<Byte>)
    ensures table == NameTable(names, |names|) && |offsets| == |names|
    ensures forall i {:trigger offsets[i]} | 0 <= i < |names| :: offsets[i] == |NameTable(names, i)|
  {
    offsets, table := [], [0];
    for i := 0 to |names|
      invariant table == NameTable(names, i) && |offsets| == i
      invariant forall j {:trigger offsets[j]} | 0 <= j < i :: offsets[j] == |NameTable(names, j)|
    {
      offsets := offsets + [|table|];
      table := table + names[i] + [0];
    }
  }

  /** A zero-terminated string is read back. */
  lemma {:induction false} CStringReads(file: seq<Byte>, at: nat, s: seq<Byte>)
    requires Placed(file, at, s + [0]) && 0 !in s && at + |s| < |file|
    ensures CString(file, at) == s
    decreases |s|
  {
    assert At(file, at) == (s + [0])[0];
    if s != [] {
      var tail := s[1..];
      assert s + [0] == [s[0]] + (tail + [0]);
      PlacedPieces(file, at, [s[0]], tail + [0]);
      CStringReads(file, at + 1, tail);
    }
  }

  lemma {:induction false} NameTableHas(file: seq<Byte>, at: nat, names: seq<seq<Byte>>, n: nat, i: nat)
    requires i < n <= |names| && Placed(file, at, NameTable(names, n))
    ensures Placed(file, at + |NameTable(names, i)|, names[i] + [0])
    ensures |NameTable(names, i)| + |names[i]| < |NameTable(names, n)|
  {
    var front := NameTable(names, n - 1);
    assert NameTable(names, n) == front + (names[n - 1] + [0]);
    PlacedPieces(file, at, front, names[n - 1] + [0]);
    if i < n - 1 {
      NameTableHas(file, at, names, n - 1, i);
    }
  }

  /** The name of every section is found at its offset in the table. */
  lemma {:induction false} NameReadsBack(file: seq<Byte>, at: nat, names: seq<seq<Byte>>, i: nat)
    requires i < |names| && Placed(file, at, NameTable(names, |names|)) && 0 !in names[i]
    requires at + |NameTable(names, |names|)| <= |file|
    ensures CString(file, at + |NameTable(names, i)|) == names[i]
  {
    NameTableHas(file, at, names, |names|, i);
    CStringReads(file, at + |NameTable(names, i)|, names[i]);
  }

  // ----- offsets -----

  ghost predicate ValidSections(sections: seq<Section>) {
    forall i {:trigger sections[i]} | 0 <= i < |sections| :: sections[i].align > 0
  }

  function ChunksOf(sections: seq<Section>): (chunks: seq<Chunk>)
    ensures |chunks| == |sections|
    ensures forall i {:trigger chunks[i]} | 0 <= i < |sections| ::
              chunks[i] == Chunk(Size(sections[i].data), sections[i].align)
  {
    seq(|sections|, i requires 0 <= i < |sections| => Chunk(Size(sections[i].data), sections[i].align))
  }

  /** Offsets in file order: each section at the next multiple of its alignment. */
  ghost predicate IsLayout(sections: seq<Section>, offsets: seq<nat>) {
    && ValidSections(sections) && ValidChunks(ChunksOf(sections)) && |offsets| == |sections|
    && forall i {:trigger offsets[i]} | 0 <= i < |sections| :: offsets[i] == Chunks.Start(ChunksOf(sections), BASE, i)
  }

  function SectionEnd(sections: seq<Section>, offsets: seq<nat>, i: nat): nat
    requires i < |sections| == |offsets|
  {
    offsets[i] + Size(sections[i].data)
  }

  /** Neighbours do not overlap, all offsets are aligned, and nothing reaches the headers. */
  lemma {:induction false} LayoutOk(sections: seq<Section>, offsets: seq<nat>, i: nat)
    requires IsLayout(sections, offsets) && i < |sections|
    ensures BASE <= offsets[i] && offsets[i] % sections[i].align == 0
    ensures i + 1 < |sections| ==> SectionEnd(sections, offsets, i) <= offsets[i + 1]
    ensures SectionEnd(sections, offsets, i) <= Chunks.End(ChunksOf(sections), BASE, |sections|)
  {
    var chunks := ChunksOf(sections);
    EndGrows(chunks, BASE, i, i);
    StartWithin(chunks, BASE, i);
    if i + 1 < |sections| {
      ChunksDisjoint(chunks, BASE, i, i + 1);
    }
  }

  /** `.text` begins where `.rodata` ends, because `.rodata` fills whole pages. */
  lemma RodataThenText(sections: seq<Section>, offsets: seq<nat>, i: nat)
    requires IsLayout(sections, offsets) && i + 1 < |sections|
    requires sections[i].align == sections[i + 1].align == PAGE && Size(sections[i].data) % PAGE == 0
    ensures offsets[i + 1] == SectionEnd(sections, offsets, i)
  {
    LayoutOk(sections, offsets, i);
    var end := SectionEnd(sections, offsets, i);
    assert end == Chunks.End(ChunksOf(sections), BASE, i + 1);
    PagesAdd(offsets[i], Size(sections[i].data));
    assert offsets[i + 1] == RoundUp(end, PAGE);
  }

  lemma PagesAdd(a: nat, b: nat)
    requires a % PAGE == 0 && b % PAGE == 0
    ensures RoundUp(a + b, PAGE) == a + b
  {
  }

  // ----- section headers -----

  /** The section header table: the null section, then the sections, each at its index. */
  ghost predicate AreHeaders(sections: seq<Section>, names: seq<nat>, offsets: seq<nat>, headers: seq<Shdr>)
    requires |names| == |offsets| == |sections|
  {
    && |headers| == |sections| + 1 && headers[0] == Shdr(0, 0, 0, 0, 0, 0, 0, 0, 0, 0)
    && forall i {:trigger HeaderFits(sections[i], names[i], offsets[i], headers[i + 1])} | 0 <= i < |sections| ::
         HeaderFits(sections[i], names[i], offsets[i], headers[i + 1])
  }

  /** A header says where its section lies, how it is named and aligned, and the index of the section
      it is linked to. */
  ghost predicate HeaderFits(s: Section, name: nat, offset: nat, h: Shdr) {
    && h.name == name && h.offset == offset && h.size == Size(s.data) && h.align == s.align
    && h.addr == (if s.loaded then offset else 0)
    && h.link == (if s.link.LinkTo? then s.link.position + 1 else 0)
    && h.kind == s.kind && h.flags == s.flags && h.info == s.info && h.entsize == s.entsize
  }

  ghost predicate Small(sections: seq<Section>, names: seq<nat>, offsets: seq<nat>) {
    && |names| == |offsets| == |sections|
    && forall i {:trigger sections[i]} | 0 <= i < |sections| ::
         names[i] < TWO32 && offsets[i] + Size(sections[i].data) < TWO32 &&
         (sections[i].link.LinkTo? ==> sections[i].link.position < |sections| < TWO32 - 1)
  }

  method BuildHeaders(sections: seq<Section>, names: seq<nat>, offsets: seq<nat>) returns (headers: seq<Shdr>)
    requires Small(sections, names, offsets)
    ensures AreHeaders(sections, names, offsets, headers)
  {
    headers := [Shdr(0, 0, 0, 0, 0, 0, 0, 0, 0, 0)];
    for i := 0 to |sections|
      invariant |headers| == i + 1 && headers[0] == Shdr(0, 0, 0, 0, 0, 0, 0, 0, 0, 0)
      invariant forall j {:trigger HeaderFits(sections[j], names[j], offsets[j], headers[j + 1])} | 0 <= j < i ::
                  HeaderFits(sections[j], names[j], offsets[j], headers[j + 1])
    {
      var s := sections[i];
      var h := Shdr(names[i], s.kind, s.flags, if s.loaded then offsets[i] else 0, offsets[i], Size(s.data),
                    if s.link.LinkTo? then s.link.position + 1 else 0, s.info, s.align, s.entsize);
      HeadersMore(sections, names, offsets, headers, h, i);
      headers := headers + [h];
    }
  }

  lemma HeadersMore(sections: seq<Section>, names: seq<nat>, offsets: seq<nat>, headers: seq<Shdr>, h: Shdr, i: nat)
    requires |names| == |offsets| == |sections| && i < |sections| && |headers| == i + 1
    requires HeaderFits(sections[i], names[i], offsets[i], h)
    requires forall j {:trigger HeaderFits(sections[j], names[j], offsets[j], headers[j + 1])} | 0 <= j < i ::
               HeaderFits(sections[j], names[j], offsets[j], headers[j + 1])
    ensures forall j {:trigger HeaderFits(sections[j], names[j], offsets[j], (headers + [h])[j + 1])} | 0 <= j < i + 1 ::
              HeaderFits(sections[j], names[j], offsets[j], (headers + [h])[j + 1])
  {
    forall j | 0 <= j < i + 1 ensures HeaderFits(sections[j], names[j], offsets[j], (headers + [h])[j + 1]) {
      if j < i {
        assert HeaderFits(sections[j], names[j], offsets[j], headers[j + 1]);
      }
    }
  }

  // ----- the pieces of the file -----

  function Align4(x: nat): nat {
    RoundUp(x, 4)
  }

  /** The file header around the three fields that locate the section headers. */
  function EhdrBytes(ident: seq<Byte>, shoff: Word32, middle: seq<Byte>, shnum: nat, shstrndx: nat): (bytes: seq<Byte>)
    requires |ident| == 32 && |middle| == 12
    ensures |bytes| == EHDR_SIZE
  {
    ident + WordBytes(shoff) + middle + HalfBytes(shnum) + HalfBytes(shstrndx)
  }

  lemma EhdrReadsBack(file: seq<Byte>, ident: seq<Byte>, shoff: Word32, middle: seq<Byte>, shnum: nat, shstrndx: nat)
    requires |ident| == 32 && |middle| == 12 && shnum < 0x1_0000 && shstrndx < 0x1_0000
    requires Placed(file, 0, EhdrBytes(ident, shoff, middle, shnum, shstrndx))
    ensures WordAt(file, E_SHOFF) == shoff && HalfAt(file, E_SHNUM) == shnum && HalfAt(file, E_SHSTRNDX) == shstrndx
  {
    var bytes := EhdrBytes(ident, shoff, middle, shnum, shstrndx);
    PlacedPart(file, 0, bytes, E_SHOFF, WordBytes(shoff));
    PlacedPart(file, 0, bytes, E_SHNUM, HalfBytes(shnum));
    PlacedPart(file, 0, bytes, E_SHSTRNDX, HalfBytes(shstrndx));
    WordPlaced(file, E_SHOFF, shoff);
    HalfPlaced(file, E_SHNUM, shnum);
    HalfPlaced(file, E_SHSTRNDX, shstrndx);
  }

  function SectionPieces(sections: seq<Section>, offsets: seq<nat>): (pieces: seq<Piece>)
    requires |offsets| == |sections|
    ensures |pieces| == |sections|
    ensures forall i {:trigger pieces[i]} | 0 <= i < |sections| :: pieces[i] == Piece(offsets[i], sections[i].data)
  {
    seq(|sections|, i requires 0 <= i < |sections| => Piece(offsets[i], sections[i].data))
  }

  function HeaderPieces(headers: seq<Shdr>, at: nat): (pieces: seq<Piece>)
    ensures |pieces| == |headers|
    ensures forall k {:trigger pieces[k]} | 0 <= k < |headers| ::
              pieces[k] == Piece(at + SHDR_SIZE * k, Memory(ShdrBytes(headers[k])))
  {
    seq(|headers|, k requires 0 <= k < |headers| => Piece(at + SHDR_SIZE * k, Memory(ShdrBytes(headers[k]))))
  }

  /** File header, program headers, sections, section headers. */
  function AllPieces(ehdr: seq<Byte>, phdrs: seq<Byte>, sections: seq<Section>, offsets: seq<nat>, headers: seq<Shdr>,
                     shoff: nat): (pieces: seq<Piece>)
    requires |offsets| == |sections|
    ensures |pieces| == 2 + |sections| + |headers|
  {
    [Piece(0, Memory(ehdr)), Piece(EHDR_SIZE, Memory(phdrs))] + SectionPieces(sections, offsets)
    + HeaderPieces(headers, shoff)
  }

  lemma AscendingJoin(a: seq<Piece>, b: seq<Piece>)
    requires Ascending(a) && Ascending(b) && a != [] && b != [] && PieceEnd(a[|a| - 1]) <= b[0].offset
    ensures Ascending(a + b)
  {
    forall i | 0 <= i < |a + b| - 1 ensures InTurn(a + b, i) {
      if i < |a| - 1 {
        assert InTurn(a, i);
      } else if i >= |a| {
        assert InTurn(b, i - |a|);
      }
    }
  }

  lemma TwoAscend(p: Piece, q: Piece)
    requires PieceEnd(p) <= q.offset
    ensures Ascending([p, q])
  {
    assert InTurn([p, q], 0);
  }

  lemma SectionsAscend(sections: seq<Section>, offsets: seq<nat>)
    requires IsLayout(sections, offsets)
    ensures Ascending(SectionPieces(sections, offsets))
  {
    var pieces := SectionPieces(sections, offsets);
    forall i | 0 <= i < |pieces| - 1 ensures InTurn(pieces, i) {
      LayoutOk(sections, offsets, i);
    }
  }

  lemma HeadersAscend(headers: seq<Shdr>, at: nat)
    ensures Ascending(HeaderPieces(headers, at))
  {
    var pieces := HeaderPieces(headers, at);
    forall k | 0 <= k < |pieces| - 1 ensures InTurn(pieces, k) {
    }
  }

  lemma AscendingJoinThree(a: seq<Piece>, b: seq<Piece>, c: seq<Piece>)
    requires Ascending(a) && Ascending(b) && Ascending(c) && a != [] && b != [] && c != []
    requires PieceEnd(a[|a| - 1]) <= b[0].offset && PieceEnd(b[|b| - 1]) <= c[0].offset
    ensures Ascending(a + b + c)
  {
    AscendingJoin(a, b);
    AscendingJoin(a + b, c);
  }

  /** The sections lie between the program headers and the section headers. */
  lemma {:induction false} SectionsBetween(sections: seq<Section>, offsets: seq<nat>, shoff: nat)
    requires IsLayout(sections, offsets) && |sections| > 0
    requires Chunks.End(ChunksOf(sections), BASE, |sections|) <= shoff
    ensures var pieces := SectionPieces(sections, offsets);
            BASE <= pieces[0].offset && PieceEnd(pieces[|pieces| - 1]) <= shoff
  {
    LayoutOk(sections, offsets, 0);
    LayoutOk(sections, offsets, |sections| - 1);
  }

  /** All pieces of the file are in order, so they are pairwise disjoint. */
  lemma {:induction false} PiecesAscend(ehdr: seq<Byte>, phdrs: seq<Byte>, sections: seq<Section>, offsets: seq<nat>,
                                        headers: seq<Shdr>, shoff: nat)
    requires IsLayout(sections, offsets) && |sections| > 0 && |headers| > 0
    requires |ehdr| == EHDR_SIZE && |phdrs| == BASE - EHDR_SIZE
    requires Chunks.End(ChunksOf(sections), BASE, |sections|) <= shoff
    ensures Ascending(AllPieces(ehdr, phdrs, sections, offsets, headers, shoff))
  {
    TwoAscend(Piece(0, Memory(ehdr)), Piece(EHDR_SIZE, Memory(phdrs)));
    SectionsAscend(sections, offsets);
    HeadersAscend(headers, shoff);
    SectionsBetween(sections, offsets, shoff);
    AscendingJoinThree([Piece(0, Memory(ehdr)), Piece(EHDR_SIZE, Memory(phdrs))], SectionPieces(sections, offsets),
                       HeaderPieces(headers, shoff));
  }

  // ----- the order of writing -----

  /** The numbers from `a` up to `b`. */
  function Range(a: nat, b: nat): (r: seq<nat>)
    requires a <= b
    ensures |r| == b - a && forall i {:trigger r[i]} | 0 <= i < |r| :: r[i] == a + i
  {
    seq(b - a, i => a + i)
  }

  /** The order in which `Write` lists the pieces of a file with `n` sections, `d` of them debug
      symbols: headers, `.dynamic`, `.dynsym`, `.dynstr`, `.hash`, `.rodata`, `.text`, symbols,
      `.shstrtab`, section headers, the other sections. */
  function WriteOrder(n: nat, d: nat): (order: seq<nat>)
    requires n >= 7 + d
  {
    [0, 1, 7, 2, 3, 4, 5, 6] + Range(8, 8 + d) + [1 + n] + Range(2 + n, 3 + 2 * n) + Range(8 + d, 1 + n)
  }

  lemma RangeHas(a: nat, b: nat, i: nat)
    requires a <= i < b
    ensures i in Range(a, b)
  {
    assert Range(a, b)[i - a] == i;
  }

  /** Every piece is written, and nothing else. */
  lemma OrderComplete(n: nat, d: nat, i: nat)
    requires n >= 7 + d
    ensures i in WriteOrder(n, d) <==> i < 3 + 2 * n
  {
    if 8 <= i < 8 + d {
      RangeHas(8, 8 + d, i);
    } else if 8 + d <= i < 1 + n {
      RangeHas(8 + d, 1 + n, i);
    } else if 2 + n <= i < 3 + 2 * n {
      RangeHas(2 + n, 3 + 2 * n, i);
    }
  }

  // ----- what a reader finds -----

  /** The file as written: section headers, the sections kept in memory, and the oat file. */
  ghost predicate FileHas(file: seq<Byte>, sections: seq<Section>, offsets: seq<nat>, headers: seq<Shdr>, shoff: nat,
                          shstrndx: nat, oat: Oat)
    requires |offsets| == |sections|
  {
    && WordAt(file, E_SHOFF) == shoff && HalfAt(file, E_SHNUM) == |headers| && HalfAt(file, E_SHSTRNDX) == shstrndx
    && (forall i {:trigger SectionHas(file, sections[i].data, offsets[i])} | 0 <= i < |sections| ::
          SectionHas(file, sections[i].data, offsets[i]))
    && (|sections| > 4 ==> OatPlaced(file, offsets[3], oat))
    && ElfStripper.HeadersAre(file, shoff, headers)
    && (|headers| > 0 ==> shoff + SHDR_SIZE * |headers| <= |file|)
  }

  ghost predicate SectionHas(file: seq<Byte>, data: Data, offset: nat) {
    data.Memory? ==> Placed(file, offset, data.bytes) && (data.bytes != [] ==> offset + |data.bytes| <= |file|)
  }

  lemma PiecesAreFile(file: seq<Byte>, ident: seq<Byte>, middle: seq<Byte>, phdrs: seq<Byte>, sections: seq<Section>,
                      offsets: seq<nat>, headers: seq<Shdr>, shoff: Word32, shstrndx: nat, oat: Oat)
    requires |ident| == 32 && |middle| == 12 && |offsets| == |sections|
    requires 0 < |headers| < 0x1_0000 && shstrndx < 0x1_0000
    requires |sections| > 4 ==> sections[3].data.OatData?
    requires var pieces := AllPieces(EhdrBytes(ident, shoff, middle, |headers|, shstrndx), phdrs, sections, offsets,
                                     headers, shoff);
             forall i {:trigger pieces[i]} | 0 <= i < |pieces| :: PiecePlaced(file, pieces[i], oat)
    ensures FileHas(file, sections, offsets, headers, shoff, shstrndx, oat)
  {
    var ehdr := EhdrBytes(ident, shoff, middle, |headers|, shstrndx);
    var pieces := AllPieces(ehdr, phdrs, sections, offsets, headers, shoff);
    assert pieces[0] == Piece(0, Memory(ehdr));
    EhdrReadsBack(file, ident, shoff, middle, |headers|, shstrndx);
    forall i | 0 <= i < |sections| ensures PiecePlaced(file, SectionPieces(sections, offsets)[i], oat) {
      assert pieces[2 + i] == SectionPieces(sections, offsets)[i];
    }
    SectionPiecesPlaced(file, sections, offsets, oat);
    forall k | 0 <= k < |headers| ensures PiecePlaced(file, HeaderPieces(headers, shoff)[k], oat) {
      assert pieces[2 + |sections| + k] == HeaderPieces(headers, shoff)[k];
    }
    HeaderPiecesPlaced(file, headers, shoff, oat);
  }

  lemma SectionPiecesPlaced(file: seq<Byte>, sections: seq<Section>, offsets: seq<nat>, oat: Oat)
    requires |offsets| == |sections| && (|sections| > 4 ==> sections[3].data.OatData?)
    requires var pieces := SectionPieces(sections, offsets);
             forall i {:trigger pieces[i]} | 0 <= i < |pieces| :: PiecePlaced(file, pieces[i], oat)
    ensures forall i {:trigger SectionHas(file, sections[i].data, offsets[i])} | 0 <= i < |sections| ::
              SectionHas(file, sections[i].data, offsets[i])
    ensures |sections| > 4 ==> OatPlaced(file, offsets[3], oat)
  {
    var pieces := SectionPieces(sections, offsets);
    forall i | 0 <= i < |sections| ensures SectionHas(file, sections[i].data, offsets[i]) {
      assert PiecePlaced(file, pieces[i], oat);
    }
    if |sections| > 4 {
      assert PiecePlaced(file, pieces[3], oat);
    }
  }

  lemma HeaderPiecesPlaced(file: seq<Byte>, headers: seq<Shdr>, shoff: nat, oat: Oat)
    requires |headers| > 0
    requires var pieces := HeaderPieces(headers, shoff);
             forall k {:trigger pieces[k]} | 0 <= k < |pieces| :: PiecePlaced(file, pieces[k], oat)
    ensures ElfStripper.HeadersAre(file, shoff, headers) && shoff + SHDR_SIZE * |headers| <= |file|
  {
    var pieces := HeaderPieces(headers, shoff);
    forall k | 0 <= k < |headers| ensures ElfStripper.HeaderIs(file, shoff, k, headers[k]) {
      assert PiecePlaced(file, pieces[k], oat);
      ShdrPlaced(file, shoff + SHDR_SIZE * k, headers[k]);
    }
    assert PiecePlaced(file, pieces[|headers| - 1], oat);
  }

  /** The headers follow the file order. */
  lemma {:induction false} HeaderInOrder(sections: seq<Section>, names: seq<nat>, offsets: seq<nat>,
                                         headers: seq<Shdr>, shoff: nat, i: nat)
    requires IsLayout(sections, offsets) && |names| == |sections| && AreHeaders(sections, names, offsets, headers)
    requires Chunks.End(ChunksOf(sections), BASE, |sections|) <= shoff && 1 <= i <= |sections|
    ensures ElfStripper.SectionOk(headers, shoff, i) && BASE <= headers[i].offset && headers[i].name == names[i - 1]
  {
    LayoutOk(sections, offsets, i - 1);
    var j := i - 1;
    assert HeaderFits(sections[j], names[j], offsets[j], headers[j + 1]);
    if i < |sections| {
      assert HeaderFits(sections[i], names[i], offsets[i], headers[i + 1]);
    }
  }

  /** The written file meets the precondition of the stripper. */
  lemma {:induction false} BuiltIsWellFormed(file: seq<Byte>, sections: seq<Section>, names: seq<nat>,
                                             offsets: seq<nat>, headers: seq<Shdr>, shoff: nat, shstrndx: nat,
                                             oat: Oat)
    requires IsLayout(sections, offsets) && |names| == |sections| && AreHeaders(sections, names, offsets, headers)
    requires Chunks.End(ChunksOf(sections), BASE, |sections|) <= shoff && |sections| >= 1
    requires AreNames(sections, names)
    requires FileHas(file, sections, offsets, headers, shoff, shstrndx, oat)
    ensures ElfStripper.WellFormed(file) && ElfStripper.Sections(file) == headers
  {
    ParsedHeaders(file, sections, offsets, headers, shoff, shstrndx, oat);
    forall i | 1 <= i < |headers| ensures ElfStripper.SectionOk(headers, shoff, i) && headers[i].name != 0 {
      HeaderInOrder(sections, names, offsets, headers, shoff, i);
      assert NameIs(sections, names[i - 1], i - 1);
    }
    HeaderInOrder(sections, names, offsets, headers, shoff, 1);
  }

  lemma ParsedHeaders(file: seq<Byte>, sections: seq<Section>, offsets: seq<nat>, headers: seq<Shdr>, shoff: nat,
                      shstrndx: nat, oat: Oat)
    requires |offsets| == |sections| && FileHas(file, sections, offsets, headers, shoff, shstrndx, oat)
    ensures ElfStripper.Sections(file) == headers && ElfStripper.Shoff(file) == shoff
  {
    var parsed := ElfStripper.Sections(file);
    forall k | 0 <= k < |headers| ensures parsed[k] == headers[k] {
      assert ElfStripper.HeaderIs(file, shoff, k, headers[k]);
      assert parsed[k] == ElfStripper.Section(file, k);
    }
  }

  // ----- building the file -----

  /** What the builder has gathered: all sections but `.shstrtab`, `debug` of them symbols, and the
      oat file with its layout. */
  datatype Elf = Elf(ident: seq<Byte>, middle: seq<Byte>, phdrs: seq<Byte>, sections: seq<Section>, debug: nat,
                     input: OatWriter.Input, layout: OatWriter.Layout)

  /** Section `i` is `.rodata` or `.text`, with the size the oat header and the oat writer report, or it
      is kept in memory. */
  ghost predicate DataOk(data: Data, i: nat, l: OatWriter.Layout) {
    if i == 3 then data == OatData(l.exec)
    else if i == 4 then data == OatText((l.size - l.exec) % TWO32)
    else data.Memory?
  }

  ghost predicate AllDataOk(sections: seq<Section>, l: OatWriter.Layout) {
    forall i {:trigger DataOk(sections[i].data, i, l)} | 0 <= i < |sections| :: DataOk(sections[i].data, i, l)
  }

  ghost predicate ValidElf(elf: Elf, oat: Oat) {
    && |elf.ident| == 32 && |elf.middle| == 12 && |elf.phdrs| == BASE - EHDR_SIZE
    && 6 + elf.debug <= |elf.sections| < 0xFFFE
    && ValidSections(elf.sections)
    && (forall i {:trigger elf.sections[i]} | 0 <= i < |elf.sections| ::
          elf.sections[i].link.LinkTo? ==> elf.sections[i].link.position <= |elf.sections|)
    && ValidOat(oat) && oat.input == elf.input && oat.layout == elf.layout && elf.input.pageSize == PAGE
    && AllDataOk(elf.sections, elf.layout)
    && elf.sections[3].align == elf.sections[4].align == PAGE
  }

  /** The oat data fills whole pages. */
  lemma OatDataOnPages(oat: Oat)
    requires ValidOat(oat) && oat.input.pageSize == PAGE
    ensures oat.layout.exec % PAGE == 0
  {
    assert IsOat(oat);
    OatWriter.ExecOnPage(oat.input, oat.marks);
  }

  function NamesOf(sections: seq<Section>): (names: seq<seq<Byte>>)
    ensures |names| == |sections| && forall i {:trigger names[i]} | 0 <= i < |names| :: names[i] == sections[i].name
  {
    seq(|sections|, i requires 0 <= i < |sections| => sections[i].name)
  }

  /** Where the names of the sections stand in the name table. */
  ghost predicate AreNames(sections: seq<Section>, names: seq<nat>) {
    |names| == |sections| &&
    forall i {:trigger NameIs(sections, names[i], i)} | 0 <= i < |names| :: NameIs(sections, names[i], i)
  }

  ghost predicate NameIs(sections: seq<Section>, name: nat, i: nat)
    requires i < |sections|
  {
    name > 0 && name == |NameTable(NamesOf(sections), i)|
  }

  const SHSTRTAB: seq<Byte> := [0x2e, 0x73, 0x68, 0x73, 0x74, 0x72, 0x74, 0x61, 0x62] // ".shstrtab"

  /** All sections, the name table last. */
  function AllSections(elf: Elf): (sections: seq<Section>)
    ensures |sections| == |elf.sections| + 1
    ensures forall i {:trigger sections[i]} | 0 <= i < |elf.sections| :: sections[i] == elf.sections[i]
  {
    var names := NamesOf(elf.sections) + [SHSTRTAB];
    elf.sections + [Section(SHSTRTAB, 3, 0, false, 0, 1, 1, NoLink, Memory(NameTable(names, |names|)))]
  }

  /** The size of the file fits in 32 bits. */
  ghost predicate FitsIn32(sections: seq<Section>) {
    ValidSections(sections) && ValidChunks(ChunksOf(sections)) &&
    Chunks.End(ChunksOf(sections), BASE, |sections|) + 4 <= TWO32
  }

  lemma SmallEnough(elf: Elf, sections: seq<Section>, names: seq<nat>, offsets: seq<nat>)
    requires sections == AllSections(elf) && FitsIn32(sections) && IsLayout(sections, offsets)
    requires |names| == |sections| < 0xFFFF
    requires forall i {:trigger elf.sections[i]} | 0 <= i < |elf.sections| ::
               elf.sections[i].link.LinkTo? ==> elf.sections[i].link.position <= |elf.sections|
    requires forall i {:trigger names[i]} | 0 <= i < |names| :: names[i] < TWO32
    ensures Small(sections, names, offsets)
  {
    forall i | 0 <= i < |sections|
      ensures offsets[i] + Size(sections[i].data) < TWO32
      ensures sections[i].link.LinkTo? ==> sections[i].link.position < |sections|
    {
      LayoutOk(sections, offsets, i);
    }
  }

  /** Names and offsets of all sections, the name table last, and the section headers behind. */
  ghost predicate Arranged(sections: seq<Section>, names: seq<nat>, offsets: seq<nat>, shoff: nat) {
    && IsLayout(sections, offsets) && AreNames(sections, names)
    && |sections| >= 1 && sections[|sections| - 1].data == Memory(NameTable(NamesOf(sections), |sections|))
    && shoff == Align4(Chunks.End(ChunksOf(sections), BASE, |sections|))
  }

  /** Names and offsets of all sections. */
  method LayOutSections(elf: Elf, ghost oat: Oat)
    returns (sections: seq<Section>, names: seq<nat>, offsets: seq<nat>, shoff: nat)
    requires ValidElf(elf, oat) && FitsIn32(AllSections(elf))
    ensures sections == AllSections(elf) && Small(sections, names, offsets)
    ensures Arranged(sections, names, offsets, shoff) && shoff < TWO32
  {
    var all := NamesOf(elf.sections) + [SHSTRTAB];
    var table;
    names, table := AssignNames(all);
    sections := elf.sections + [Section(SHSTRTAB, 3, 0, false, 0, 1, 1, NoLink, Memory(table))];
    assert sections == AllSections(elf);
    assert NamesOf(sections) == all;
    var end, padding;
    offsets, end, padding := LayOut(ChunksOf(sections), BASE);
    shoff := RoundUp(end, 4);
    ShoffFits(end, shoff);
    NamesFit(sections, offsets, all, names);
    SmallEnough(elf, sections, names, offsets);
  }

  lemma ShoffFits(end: nat, shoff: nat)
    requires end + 4 <= TWO32 && shoff == RoundUp(end, 4)
    ensures shoff < TWO32
  {
  }

  lemma {:induction false} NameTableGrows(names: seq<seq<Byte>>, i: nat, n: nat)
    requires i <= n <= |names|
    ensures |NameTable(names, i)| <= |NameTable(names, n)|
  {
    if i < n {
      NameTableGrows(names, i, n - 1);
    }
  }

  lemma {:induction false} NamesFit(sections: seq<Section>, offsets: seq<nat>, all: seq<seq<Byte>>, names: seq<nat>)
    requires FitsIn32(sections) && IsLayout(sections, offsets) && |sections| > 0 && |names| == |all|
    requires sections[|sections| - 1].data == Memory(NameTable(all, |all|))
    requires forall i {:trigger names[i]} | 0 <= i < |names| :: names[i] == |NameTable(all, i)|
    ensures forall i {:trigger names[i]} | 0 <= i < |names| :: 0 < names[i] < TWO32
  {
    LayoutOk(sections, offsets, |sections| - 1);
    forall i | 0 <= i < |names| ensures 0 < names[i] < TWO32 {
      NameTableGrows(all, i, |all|);
    }
  }

  /** `Init` and `Write`: the file holds every section at its offset and headers that describe them; the
      oat file stands at `.rodata`, and its code is `.text`, which begins where `.rodata` ends. */
  method Build(out: Sink, elf: Elf, ghost oat: Oat)
    returns (sections: seq<Section>, names: seq<nat>, offsets: seq<nat>, headers: seq<Shdr>, shoff: nat)
    requires ValidElf(elf, oat) && FitsIn32(AllSections(elf))
    modifies out
    ensures sections == AllSections(elf) && Built(out.contents, sections, names, offsets, headers, shoff, oat)
    ensures offsets[4] == offsets[3] + elf.layout.exec
  {
    sections, names, offsets, shoff := LayOutSections(elf, oat);
    headers := BuildHeaders(sections, names, offsets);
    OatSections(elf, oat, sections, offsets);
    WriteFile(out, elf, sections, offsets, headers, shoff, oat);
  }

  /** What `Build` has written. */
  ghost predicate Built(file: seq<Byte>, sections: seq<Section>, names: seq<nat>, offsets: seq<nat>, headers: seq<Shdr>,
                        shoff: nat, oat: Oat) {
    && Arranged(sections, names, offsets, shoff) && AreHeaders(sections, names, offsets, headers)
    && FileHas(file, sections, offsets, headers, shoff, |sections|, oat)
  }

  lemma OatSections(elf: Elf, oat: Oat, sections: seq<Section>, offsets: seq<nat>)
    requires ValidElf(elf, oat) && sections == AllSections(elf) && IsLayout(sections, offsets)
    ensures AllDataOk(sections, elf.layout) && offsets[4] == offsets[3] + elf.layout.exec
  {
    forall i | 0 <= i < |sections| ensures DataOk(sections[i].data, i, elf.layout) {
      if i < |elf.sections| {
        assert DataOk(elf.sections[i].data, i, elf.layout);
      }
    }
    OatDataOnPages(oat);
    assert DataOk(sections[3].data, 3, elf.layout);
    RodataThenText(sections, offsets, 3);
  }

  method WriteFile(out: Sink, elf: Elf, sections: seq<Section>, offsets: seq<nat>, headers: seq<Shdr>, shoff: Word32,
                   ghost oat: Oat)
    requires |elf.ident| == 32 && |elf.middle| == 12 && |elf.phdrs| == BASE - EHDR_SIZE
    requires 7 + elf.debug <= |sections| < 0xFFFF && |headers| == |sections| + 1
    requires IsLayout(sections, offsets) && AllDataOk(sections, elf.layout)
    requires offsets[4] == offsets[3] + elf.layout.exec
    requires ValidOat(oat) && oat.input == elf.input && oat.layout == elf.layout
    requires Chunks.End(ChunksOf(sections), BASE, |sections|) <= shoff
    modifies out
    ensures FileHas(out.contents, sections, offsets, headers, shoff, |sections|, oat)
  {
    var ehdr := EhdrBytes(elf.ident, shoff, elf.middle, |headers|, |sections|);
    var pieces := AllPieces(ehdr, elf.phdrs, sections, offsets, headers, shoff);
    PiecesAscend(ehdr, elf.phdrs, sections, offsets, headers, shoff);
    OatAmongPieces(ehdr, elf.phdrs, sections, offsets, headers, shoff, oat);
    var order := WriteOrder(|sections|, elf.debug);
    OrderFits(|sections|, elf.debug, |pieces|);
    WriteOutFile(out, pieces, order, elf.input, elf.layout, oat, 5);
    assert DataOk(sections[3].data, 3, elf.layout);
    PiecesAreFile(out.contents, elf.ident, elf.middle, elf.phdrs, sections, offsets, headers, shoff, |sections|, oat);
  }

  lemma OatAmongPieces(ehdr: seq<Byte>, phdrs: seq<Byte>, sections: seq<Section>, offsets: seq<nat>, headers: seq<Shdr>,
                       shoff: nat, oat: Oat)
    requires |sections| > 4 && |offsets| == |sections| && ValidOat(oat) && AllDataOk(sections, oat.layout)
    requires offsets[4] == offsets[3] + oat.layout.exec
    ensures OatAt(AllPieces(ehdr, phdrs, sections, offsets, headers, shoff), 5, oat)
  {
    var pieces := AllPieces(ehdr, phdrs, sections, offsets, headers, shoff);
    var middle := SectionPieces(sections, offsets);
    ExecInside(oat);
    assert DataOk(sections[3].data, 3, oat.layout) && DataOk(sections[4].data, 4, oat.layout);
    assert pieces[5] == middle[3] && pieces[6] == middle[4];
    forall i | 0 <= i < |pieces| && i != 5 && i != 6 ensures pieces[i].data.Memory? {
      if 2 <= i < 2 + |sections| {
        assert pieces[i] == middle[i - 2];
        assert DataOk(sections[i - 2].data, i - 2, oat.layout);
      } else if i >= 2 + |sections| {
        assert pieces[i] == HeaderPieces(headers, shoff)[i - 2 - |sections|];
      }
    }
  }

  lemma OrderFits(n: nat, d: nat, count: nat)
    requires n >= 7 + d && count == 3 + 2 * n
    ensures forall k {:trigger WriteOrder(n, d)[k]} | 0 <= k < |WriteOrder(n, d)| :: WriteOrder(n, d)[k] < count
    ensures forall i | 0 <= i < count :: i in WriteOrder(n, d)
  {
    forall k | 0 <= k < |WriteOrder(n, d)| ensures WriteOrder(n, d)[k] < count {
      OrderComplete(n, d, WriteOrder(n, d)[k]);
    }
    forall i: nat | 0 <= i < count ensures i in WriteOrder(n, d) {
      OrderComplete(n, d, i);
    }
  }

  // ----- names in the written file -----

  lemma {:induction false} NameOfHeader(file: seq<Byte>, shoff: nat, k: nat, strings: nat, h: Shdr, t: Shdr)
    requires WordAt(file, E_SHOFF) == shoff && HalfAt(file, E_SHSTRNDX) == strings
    requires ElfStripper.HeaderIs(file, shoff, k, h) && ElfStripper.HeaderIs(file, shoff, strings, t)
    ensures ElfStripper.NameOf(file, k) == CString(file, t.offset + h.name)
  {
    assert ElfStripper.Section(file, k) == h;
    assert ElfStripper.Section(file, strings) == t;
  }

  /** A reader finds the name of every section through the section headers. */
  lemma {:induction false} SectionNamed(file: seq<Byte>, sections: seq<Section>, names: seq<nat>, offsets: seq<nat>,
                                        headers: seq<Shdr>, shoff: nat, oat: Oat, i: nat)
    requires Built(file, sections, names, offsets, headers, shoff, oat)
    requires i < |sections| && 0 !in sections[i].name
    ensures ElfStripper.NameOf(file, i + 1) == sections[i].name
  {
    var n := |sections|;
    assert SectionHas(file, sections[n - 1].data, offsets[n - 1]);
    NamedByHeaders(file, sections, names, offsets, headers, shoff, i);
  }

  lemma {:induction false} NamedByHeaders(file: seq<Byte>, sections: seq<Section>, names: seq<nat>, offsets: seq<nat>,
                                          headers: seq<Shdr>, shoff: nat, i: nat)
    requires |offsets| == |sections| && AreNames(sections, names) && AreHeaders(sections, names, offsets, headers)
    requires WordAt(file, E_SHOFF) == shoff && HalfAt(file, E_SHSTRNDX) == |sections|
    requires ElfStripper.HeadersAre(file, shoff, headers) && i < |sections| && 0 !in sections[i].name
    requires var table := NameTable(NamesOf(sections), |sections|);
             Placed(file, offsets[|sections| - 1], table) && offsets[|sections| - 1] + |table| <= |file|
    ensures ElfStripper.NameOf(file, i + 1) == sections[i].name
  {
    var n := |sections|;
    assert headers[i + 1].name == |NameTable(NamesOf(sections), i)| by {
      HeaderNamed(sections, names, offsets, headers, i);
    }
    assert headers[n].offset == offsets[n - 1] by {
      HeaderNamed(sections, names, offsets, headers, n - 1);
    }
    NameFound(file, shoff, headers, i + 1, n, NamesOf(sections), i);
  }

  lemma {:induction false} HeaderNamed(sections: seq<Section>, names: seq<nat>, offsets: seq<nat>, headers: seq<Shdr>,
                                       i: nat)
    requires |offsets| == |sections| && AreNames(sections, names) && AreHeaders(sections, names, offsets, headers)
    requires i < |sections|
    ensures headers[i + 1].name == |NameTable(NamesOf(sections), i)| > 0 && headers[i + 1].offset == offsets[i]
  {
    assert HeaderFits(sections[i], names[i], offsets[i], headers[i + 1]);
    assert NameIs(sections, names[i], i);
  }

  /** The name of header `k`, found through the name table that header `strings` describes. */
  lemma {:induction false} NameFound(file: seq<Byte>, shoff: nat, headers: seq<Shdr>, k: nat, strings: nat,
                                     names: seq<seq<Byte>>, i: nat)
    requires WordAt(file, E_SHOFF) == shoff && HalfAt(file, E_SHSTRNDX) == strings
    requires ElfStripper.HeadersAre(file, shoff, headers) && k < |headers| && strings < |headers|
    requires i < |names| && headers[k].name == |NameTable(names, i)| && 0 !in names[i]
    requires var at, table := headers[strings].offset, NameTable(names, |names|);
             Placed(file, at, table) && at + |table| <= |file|
    ensures ElfStripper.NameOf(file, k) == names[i]
  {
    var at := headers[strings].offset;
    assert ElfStripper.NameOf(file, k) == CString(file, at + headers[k].name) by {
      assert ElfStripper.HeaderIs(file, shoff, k, headers[k]);
      assert ElfStripper.HeaderIs(file, shoff, strings, headers[strings]);
      NameOfHeader(file, shoff, k, strings, headers[k], headers[strings]);
    }
    assert CString(file, at + |NameTable(names, i)|) == names[i] by {
      NameReadsBack(file, at, names, i);
    }
  }

  // ----- stripping the written file -----

  /** The names the stripper drops: those that begin with `.debug`, `.strtab` and `.symtab`. */
  predicate Dropped(name: seq<Byte>) {
    ElfStripper.DEBUG <= name || name in [ElfStripper.STRTAB, ElfStripper.SYMTAB]
  }

  /** Which headers are to stay: that of the null section, and those of sections that are not dropped. */
  function Staying(sections: seq<Section>): (keep: seq<bool>)
    ensures |keep| == |sections| + 1
    ensures forall k {:trigger keep[k]} | 0 <= k < |keep| :: keep[k] <==> k == 0 || !Dropped(sections[k - 1].name)
  {
    seq(|sections| + 1, k requires 0 <= k < |sections| + 1 => k == 0 || !Dropped(sections[k - 1].name))
  }

  ghost predicate NamesOk(sections: seq<Section>) {
    forall i {:trigger sections[i]} | 0 <= i < |sections| :: 0 !in sections[i].name
  }

  lemma KeepsByName(file: seq<Byte>, sections: seq<Section>, names: seq<nat>, offsets: seq<nat>, headers: seq<Shdr>,
                    shoff: nat, oat: Oat, k: nat)
    requires Built(file, sections, names, offsets, headers, shoff, oat) && NamesOk(sections) && k < |headers|
    ensures ElfStripper.Keeps(file, k) == Staying(sections)[k]
  {
    assert ElfStripper.HeaderIs(file, shoff, k, headers[k]);
    assert ElfStripper.Section(file, k) == headers[k];
    if k > 0 {
      var i := k - 1;
      SectionNamed(file, sections, names, offsets, headers, shoff, oat, i);
      HeaderNamed(sections, names, offsets, headers, i);
    }
  }

  /** The stripper can be run on the written file, and keeps exactly the sections whose names are not
      dropped: their headers, in order. */
  lemma {:induction false} StripsByName(file: seq<Byte>, sections: seq<Section>, names: seq<nat>, offsets: seq<nat>,
                                        headers: seq<Shdr>, shoff: nat, oat: Oat)
    requires Built(file, sections, names, offsets, headers, shoff, oat) && NamesOk(sections)
    ensures ElfStripper.WellFormed(file) && ElfStripper.Sections(file) == headers
    ensures ElfStripper.Remaining(file) == ElfStripper.KeptSections(headers, Staying(sections), |headers|)
  {
    BuiltIsWellFormed(file, sections, names, offsets, headers, shoff, |sections|, oat);
    var flags, staying := ElfStripper.KeepFlags(file), Staying(sections);
    assert |ElfStripper.Sections(file)| == |headers|;
    forall k | 0 <= k < |headers| ensures flags[k] == staying[k] {
      KeepsByName(file, sections, names, offsets, headers, shoff, oat, k);
    }
    assert flags == staying;
  }

  /** Stripping the written file: what is left are the sections whose names are not dropped, with their
      bytes and with headers for their new places. */
  method StripBuilt(file: array<Byte>, ghost sections: seq<Section>, ghost names: seq<nat>, ghost offsets: seq<nat>,
                    ghost headers: seq<Shdr>, ghost shoff: nat, ghost oat: Oat)
    returns (size: nat, ghost kept: seq<Shdr>, ghost newHeaders: seq<Shdr>)
    requires Built(file[..], sections, names, offsets, headers, shoff, oat) && NamesOk(sections)
    modifies file
    ensures kept == ElfStripper.KeptSections(headers, Staying(sections), |headers|) && |kept| >= 1
    ensures size <= file.Length && ElfStripper.Inside(kept, file.Length)
    ensures ElfStripper.IsStripped(old(file[..]), file[..size], kept, headers[1].offset, newHeaders)
  {
    StripsByName(file[..], sections, names, offsets, headers, shoff, oat);
    kept := ElfStripper.Remaining(file[..]);
    size, newHeaders := ElfStripper.Strip(file);
  }
}
