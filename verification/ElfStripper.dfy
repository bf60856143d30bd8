/**
 The ELF stripper. It selects the sections to keep, moves them down in place over the gaps, writes the
 remaining section headers behind them and cuts the file off there.
 */
module ElfStripper {
  import opened Bytes
  import opened Streams
  import opened Chunks
  import opened ElfFormat

  // ----- the file as it is parsed -----

  function Shoff(file: seq<Byte>): Word32 {
    WordAt(file, E_SHOFF)
  }

  function Shnum(file: seq<Byte>): nat {
    HalfAt(file, E_SHNUM)
  }

  function Section(file: seq<Byte>, i: nat): Shdr {
    ShdrAt(file, Shoff(file) + SHDR_SIZE * i)
  }

  function NameOf(file: seq<Byte>, i: nat): seq<Byte> {
    CString(file, Section(file, HalfAt(file, E_SHSTRNDX)).offset + Section(file, i).name)
  }

  const DEBUG: seq<Byte> := [0x2e, 0x64, 0x65, 0x62, 0x75, 0x67] // ".debug"
  const STRTAB: seq<Byte> := [0x2e, 0x73, 0x74, 0x72, 0x74, 0x61, 0x62] // ".strtab"
  const SYMTAB: seq<Byte> := [0x2e, 0x73, 0x79, 0x6d, 0x74, 0x61, 0x62] // ".symtab"

  /** Debug sections, symbols and their names are dropped; the null section has no name. */
  predicate Keeps(file: seq<Byte>, i: nat) {
    Section(file, i).name == 0 || !(DEBUG <= NameOf(file, i) || NameOf(file, i) in [STRTAB, SYMTAB])
  }

  ghost function Sections(file: seq<Byte>): (all: seq<Shdr>)
    ensures |all| == Shnum(file)
  {
    seq(Shnum(file), i requires 0 <= i < Shnum(file) => Section(file, i))
  }

  ghost function KeepFlags(file: seq<Byte>): (keep: seq<bool>)
    ensures |keep| == Shnum(file)
  {
    seq(Shnum(file), i requires 0 <= i < Shnum(file) => Keeps(file, i))
  }

  // ----- the order of the sections -----

  /** Where section `i` must have ended: at the next section, or at the section headers. */
  function Limit(all: seq<Shdr>, shoff: nat, i: nat): nat {
    if i + 1 < |all| then all[i + 1].offset else shoff
  }

  /** A section that is aligned and ends before what follows. */
  ghost predicate SectionOk(all: seq<Shdr>, shoff: nat, i: nat)
    requires i < |all|
  {
    (all[i].align > 1 ==> all[i].offset % all[i].align == 0) && all[i].offset + all[i].size <= Limit(all, shoff, i)
  }

  /** After the null section, sections follow each other from `base` on, and the section headers
      follow the sections. */
  ghost predicate InOrder(all: seq<Shdr>, base: nat, shoff: nat) {
    && |all| >= 1 && base <= Limit(all, shoff, 0)
    && forall i {:trigger SectionOk(all, shoff, i)} | 1 <= i < |all| :: SectionOk(all, shoff, i)
  }

  lemma {:induction false} SectionsInOrder(all: seq<Shdr>, base: nat, shoff: nat, i: nat, j: nat)
    requires InOrder(all, base, shoff) && 1 <= i <= j < |all|
    ensures base <= all[i].offset <= all[j].offset && all[j].offset + all[j].size <= shoff
    ensures i < j ==> all[i].offset + all[i].size <= all[j].offset
    decreases j - i, |all| - i, i
  {
    assert SectionOk(all, shoff, i);
    if i < j {
      SectionsInOrder(all, base, shoff, i, j - 1);
      assert SectionOk(all, shoff, j - 1);
    }
    EndsBefore(all, base, shoff, j);
    StartsAfter(all, base, shoff, i);
  }

  lemma {:induction false} EndsBefore(all: seq<Shdr>, base: nat, shoff: nat, j: nat)
    requires InOrder(all, base, shoff) && 1 <= j < |all|
    ensures all[j].offset + all[j].size <= shoff
    decreases |all| - j
  {
    assert SectionOk(all, shoff, j);
    if j + 1 < |all| {
      EndsBefore(all, base, shoff, j + 1);
    }
  }

  lemma {:induction false} StartsAfter(all: seq<Shdr>, base: nat, shoff: nat, i: nat)
    requires InOrder(all, base, shoff) && 1 <= i < |all|
    ensures base <= all[i].offset
  {
    if i > 1 {
      StartsAfter(all, base, shoff, i - 1);
      assert SectionOk(all, shoff, i - 1);
    }
  }

  // ----- selection -----

  /** The indices below `n` of the sections to keep. */
  function Kept(keep: seq<bool>, n: nat): (kept: seq<nat>)
    requires n <= |keep|
    ensures forall k {:trigger kept[k]} | 0 <= k < |kept| :: kept[k] < n && keep[kept[k]]
    ensures forall i {:trigger keep[i]} | 0 <= i < n && keep[i] :: i in kept
  {
    if n == 0 then [] else Kept(keep, n - 1) + if keep[n - 1] then [n - 1] else []
  }

  /** The sections to keep among the first `n`. */
  function KeptSections(all: seq<Shdr>, keep: seq<bool>, n: nat): (kept: seq<Shdr>)
    requires n <= |keep| == |all|
    ensures |kept| == |Kept(keep, n)|
    ensures forall k {:trigger kept[k]} | 0 <= k < |kept| :: kept[k] == all[Kept(keep, n)[k]]
  {
    if n == 0 then [] else KeptSections(all, keep, n - 1) + if keep[n - 1] then [all[n - 1]] else []
  }

  /** They are still in order. */
  lemma {:induction false} KeptInOrder(all: seq<Shdr>, keep: seq<bool>, base: nat, shoff: nat, n: nat)
    requires InOrder(all, base, shoff) && 1 <= n <= |keep| == |all| && keep[0]
    ensures InOrder(KeptSections(all, keep, n), base, Limit(all, shoff, n - 1))
    ensures KeptSections(all, keep, n)[0] == all[0]
  {
    if n > 1 {
      KeptInOrder(all, keep, base, shoff, n - 1);
      assert SectionOk(all, shoff, n - 1);
      ExtendOrder(KeptSections(all, keep, n - 1), base, all[n - 1], keep[n - 1], Limit(all, shoff, n - 1));
    }
  }

  /** One more section behind the others, kept or not. */
  lemma ExtendOrder(kept: seq<Shdr>, base: nat, s: Shdr, keep: bool, limit: nat)
    requires InOrder(kept, base, s.offset) && s.offset + s.size <= limit && (s.align > 1 ==> s.offset % s.align == 0)
    ensures InOrder(kept + if keep then [s] else [], base, limit)
  {
    var more := kept + if keep then [s] else [];
    forall i | 1 <= i < |more| ensures SectionOk(more, limit, i) {
      if i < |kept| {
        assert SectionOk(kept, s.offset, i);
      }
    }
  }

  // ----- the new layout -----

  ghost function ChunkOf(s: Shdr): Chunk {
    Chunk(s.size, if s.align > 1 then s.align else 1)
  }

  /** The kept sections after the null section. */
  ghost function ChunksOf(kept: seq<Shdr>): (chunks: seq<Chunk>)
    requires |kept| >= 1
    ensures |chunks| == |kept| - 1 && ValidChunks(chunks)
    ensures forall k {:trigger chunks[k]} | 0 <= k < |chunks| :: chunks[k] == ChunkOf(kept[k + 1])
  {
    seq(|kept| - 1, k requires 0 <= k < |kept| - 1 => ChunkOf(kept[k + 1]))
  }

  /** The space before a kept section is enough: sections only move down, to an aligned place. */
  lemma {:induction false} MovesDown(kept: seq<Shdr>, base: nat, shoff: nat, k: nat)
    requires InOrder(kept, base, shoff) && k + 1 < |kept|
    ensures var chunks := ChunksOf(kept);
            && base <= End(chunks, base, k) <= Start(chunks, base, k) <= kept[k + 1].offset
            && End(chunks, base, k + 1) <= kept[k + 1].offset + kept[k + 1].size <= shoff
  {
    var chunks := ChunksOf(kept);
    SectionsInOrder(kept, base, shoff, k + 1, k + 1);
    assert SectionOk(kept, shoff, k + 1);
    if k > 0 {
      MovesDown(kept, base, shoff, k - 1);
      SectionsInOrder(kept, base, shoff, k, k + 1);
    }
    EndGrows(chunks, base, k, k);
    RoundUpLeast(End(chunks, base, k), chunks[k].align, kept[k + 1].offset);
  }

  /** A kept header with its new offset. */
  ghost predicate IsNewHeader(kept: seq<Shdr>, base: nat, k: nat, h: Shdr)
    requires k < |kept|
  {
    if k == 0 then h == kept[0]
    else h == kept[k].(offset := h.offset) && h.offset == Start(ChunksOf(kept), base, k - 1)
  }

  /** The bytes of a section. */
  ghost function SectionBytes(file: seq<Byte>, s: Shdr): (bytes: seq<Byte>)
    requires s.offset + s.size <= |file|
    ensures |bytes| == s.size
  {
    file[s.offset..s.offset + s.size]
  }

  ghost predicate Inside(kept: seq<Shdr>, size: nat) {
    forall k {:trigger kept[k]} | 1 <= k < |kept| :: kept[k].offset + kept[k].size <= size
  }

  lemma OrderedInside(kept: seq<Shdr>, base: nat, shoff: nat, size: nat)
    requires InOrder(kept, base, shoff) && shoff <= size
    ensures Inside(kept, size)
  {
    forall k | 1 <= k < |kept| ensures kept[k].offset + kept[k].size <= size {
      EndsBefore(kept, base, shoff, k);
    }
  }

  /** The bytes of the kept sections. */
  ghost function DataOf(file: seq<Byte>, kept: seq<Shdr>): (data: seq<seq<Byte>>)
    requires |kept| >= 1 && Inside(kept, |file|)
    ensures Fits(ChunksOf(kept), data)
    ensures forall k {:trigger data[k]} | 0 <= k < |data| :: data[k] == SectionBytes(file, kept[k + 1])
  {
    seq(|kept| - 1, k requires 0 <= k < |kept| - 1 => SectionBytes(file, kept[k + 1]))
  }

  // ----- what stays readable while sections move -----

  /** The file parses as the sections `all`, with the headers at `shoff`. */
  ghost predicate Parses(file: seq<Byte>, all: seq<Shdr>, shoff: nat) {
    && Shoff(file) == shoff && Shnum(file) == |all|
    && forall i {:trigger all[i]} | 0 <= i < |all| :: ShdrAt(file, shoff + SHDR_SIZE * i) == all[i]
  }

  /** As long as only bytes between the file header and the section headers change, headers are read
      as before. */
  lemma StillParses(before: seq<Byte>, after: seq<Byte>, all: seq<Shdr>, shoff: nat, from: nat, to: nat)
    requires Parses(before, all, shoff) && SameOutside(before, after, from, to) && EHDR_SIZE <= from && to <= shoff
    ensures Parses(after, all, shoff)
  {
    WordStays(before, after, from, to, E_SHOFF);
    HalfStays(before, after, from, to, E_SHNUM);
    forall i | 0 <= i < |all| ensures ShdrAt(after, shoff + SHDR_SIZE * i) == all[i] {
      ShdrStays(before, after, from, to, shoff + SHDR_SIZE * i);
    }
  }

  /** `GetSectionHeader`: read from the file, each time. */
  method ReadSection(file: array<Byte>, i: nat, ghost all: seq<Shdr>, ghost shoff: nat) returns (s: Shdr)
    requires Parses(file[..], all, shoff) && i < |all|
    ensures s == all[i]
  {
    s := Section(file[..], i);
  }

  // ----- moving bytes -----

  /** Copies upwards from the first byte, right when the bytes move down. */
  method MoveForward(file: array<Byte>, dst: nat, src: nat, size: nat)
    requires dst <= src && src + size <= file.Length
    modifies file
    ensures forall k {:trigger file[k]} | 0 <= k < file.Length ::
              file[k] == if dst <= k < dst + size then old(file[src + (k - dst)]) else old(file[k])
  {
    for i := 0 to size
      invariant forall k {:trigger file[k]} | 0 <= k < file.Length ::
                  file[k] == if dst <= k < dst + i then old(file[src + (k - dst)]) else old(file[k])
    {
      file[dst + i] := file[src + i];
    }
  }

  /** Copies downwards from the last byte, right when the bytes move up. */
  method MoveBackward(file: array<Byte>, dst: nat, src: nat, size: nat)
    requires src <= dst && dst + size <= file.Length
    modifies file
    ensures forall k {:trigger file[k]} | 0 <= k < file.Length ::
              file[k] == if dst <= k < dst + size then old(file[src + (k - dst)]) else old(file[k])
  {
    for i := size downto 0
      invariant forall k {:trigger file[k]} | 0 <= k < file.Length ::
                  file[k] == if dst + i <= k < dst + size then old(file[src + (k - dst)]) else old(file[k])
    {
      file[dst + i] := file[src + i];
    }
  }

  /** `memmove`: overlapping bytes arrive as they were. */
  method MoveBytes(file: array<Byte>, dst: nat, src: nat, size: nat)
    requires dst + size <= file.Length && src + size <= file.Length
    modifies file
    ensures Placed(file[..], dst, old(file[src..src + size]))
    ensures SameOutside(old(file[..]), file[..], dst, dst + size)
  {
    if dst <= src {
      MoveForward(file, dst, src, size);
    } else {
      MoveBackward(file, dst, src, size);
    }
  }

  /** `memcpy` from elsewhere. */
  method CopyIn(file: array<Byte>, dst: nat, bytes: seq<Byte>)
    requires dst + |bytes| <= file.Length
    modifies file
    ensures Placed(file[..], dst, bytes) && SameOutside(old(file[..]), file[..], dst, dst + |bytes|)
  {
    for i := 0 to |bytes|
      invariant forall k {:trigger file[k]} | 0 <= k < file.Length ::
                  file[k] == if dst <= k < dst + i then bytes[k - dst] else old(file[k])
    {
      file[dst + i] := bytes[i];
    }
  }

  // ----- compaction -----

  /** The state after the first `i` chunks have been moved. */
  ghost predicate Moved(original: seq<Byte>, file: seq<Byte>, chunks: seq<Chunk>, data: seq<seq<Byte>>, base: nat,
                        i: nat)
    requires ValidChunks(chunks) && Fits(chunks, data) && i <= |chunks|
  {
    && |file| == |original| && SameOutside(original, file, base, End(chunks, base, i))
    && ChunksPlaced(file, 0, chunks, data, base, i)
  }

  /** One more chunk at its new place. */
  lemma {:induction false} MoveStep(original: seq<Byte>, before: seq<Byte>, after: seq<Byte>, chunks: seq<Chunk>,
                                    data: seq<seq<Byte>>, base: nat, i: nat)
    requires ValidChunks(chunks) && Fits(chunks, data) && i < |chunks| && Moved(original, before, chunks, data, base, i)
    requires |after| == |before| && Placed(after, Start(chunks, base, i), data[i])
    requires SameOutside(before, after, Start(chunks, base, i), Start(chunks, base, i) + chunks[i].size)
    ensures Moved(original, after, chunks, data, base, i + 1)
  {
    EndGrows(chunks, base, i, i + 1);
    assert End(chunks, base, i + 1) == Start(chunks, base, i) + chunks[i].size;
    assert SameOutside(before, after, End(chunks, base, i), End(chunks, base, i + 1));
    ChunksStep(before, after, 0, chunks, data, base, i);
    SameOutsideThen(original, before, after, base, End(chunks, base, i), End(chunks, base, i + 1));
  }

  /** What lies behind the moved chunks has not been touched. */
  lemma Untouched(original: seq<Byte>, file: seq<Byte>, from: nat, to: nat, s: Shdr)
    requires |file| == |original| && SameOutside(original, file, from, to)
    requires to <= s.offset && s.offset + s.size <= |file|
    ensures SectionBytes(file, s) == SectionBytes(original, s)
  {
    forall p | 0 <= p < s.size ensures SectionBytes(file, s)[p] == SectionBytes(original, s)[p] {
      assert At(file, s.offset + p) == At(original, s.offset + p);
    }
  }

  /** The first `j` headers after the null section have their new offsets. */
  ghost predicate HeadersUpTo(kept: seq<Shdr>, base: nat, headers: seq<Shdr>, j: nat) {
    && |headers| == |kept|
    && (forall k {:trigger IsNewHeader(kept, base, k, headers[k])} | 0 <= k <= j && k < |kept| ::
          IsNewHeader(kept, base, k, headers[k]))
    && (forall k {:trigger SameHeader(kept, headers, k)} | j < k < |kept| :: SameHeader(kept, headers, k))
  }

  ghost predicate SameHeader(kept: seq<Shdr>, headers: seq<Shdr>, k: nat)
    requires k < |kept| == |headers|
  {
    headers[k] == kept[k]
  }

  lemma {:induction false} HeadersStep(kept: seq<Shdr>, base: nat, headers: seq<Shdr>, j: nat, offset: Word32)
    requires HeadersUpTo(kept, base, headers, j) && j + 1 < |kept| && offset == Start(ChunksOf(kept), base, j)
    ensures HeadersUpTo(kept, base, headers[j + 1 := headers[j + 1].(offset := offset)], j + 1)
  {
    var more := headers[j + 1 := headers[j + 1].(offset := offset)];
    assert SameHeader(kept, headers, j + 1);
    forall k | j + 1 < k < |kept| ensures SameHeader(kept, more, k) {
      assert SameHeader(kept, headers, k);
    }
    forall k | 0 <= k <= j + 1 && k < |kept| ensures IsNewHeader(kept, base, k, more[k]) {
      if k <= j {
        assert IsNewHeader(kept, base, k, headers[k]);
      }
    }
  }

  /** What the compaction relies on: the headers of the kept sections are in order and can be read
      again from the file. */
  ghost predicate Ready(original: seq<Byte>, headers: seq<Shdr>, indexes: seq<nat>, all: seq<Shdr>, base: nat,
                        shoff: nat) {
    && InOrder(headers, base, shoff) && shoff <= |original| && Inside(headers, |original|) && EHDR_SIZE <= base
    && Parses(original, all, shoff) && Selected(headers, indexes, all)
  }

  /** The state of the compaction after `j` sections. */
  ghost predicate CompactState(original: seq<Byte>, file: seq<Byte>, headers: seq<Shdr>, base: nat,
                               newHeaders: seq<Shdr>, offset: nat, j: nat)
    requires |headers| >= 1 && Inside(headers, |original|)
  {
    && j < |headers| && HeadersUpTo(headers, base, newHeaders, j) && offset == End(ChunksOf(headers), base, j)
    && Moved(original, file, ChunksOf(headers), DataOf(original, headers), base, j)
  }

  /** One turn of the loop. */
  method CompactOne(file: array<Byte>, headers: seq<Shdr>, indexes: seq<nat>, newHeaders: seq<Shdr>, offset: nat,
                    j: nat, ghost original: seq<Byte>, ghost all: seq<Shdr>, ghost base: nat, ghost shoff: nat)
    returns (nextHeaders: seq<Shdr>, nextOffset: nat)
    requires Ready(original, headers, indexes, all, base, shoff) && j + 1 < |headers|
    requires CompactState(original, file[..], headers, base, newHeaders, offset, j)
    modifies file
    ensures CompactState(original, file[..], headers, base, nextHeaders, nextOffset, j + 1)
  {
    ghost var chunks, data := ChunksOf(headers), DataOf(original, headers);
    MovesDown(headers, base, shoff, j);
    StillParses(original, file[..], all, shoff, base, offset);
    var oldSh := ReadSection(file, indexes[j + 1], all, shoff);
    var place := MoveSection(file, oldSh, offset, original, chunks, data, base, j);
    HeadersStep(headers, base, newHeaders, j, place);
    nextHeaders := newHeaders[j + 1 := newHeaders[j + 1].(offset := place)];
    nextOffset := place + oldSh.size;
  }

  lemma CompactStart(original: seq<Byte>, headers: seq<Shdr>, base: nat)
    requires |headers| >= 1 && Inside(headers, |original|)
    ensures CompactState(original, original, headers, base, headers, base, 0)
  {
  }

  /** The compaction loop. */
  method Compact(file: array<Byte>, headers: seq<Shdr>, indexes: seq<nat>, ghost all: seq<Shdr>, ghost base: nat,
                 ghost shoff: nat) returns (newHeaders: seq<Shdr>, offset: nat)
    requires Ready(file[..], headers, indexes, all, base, shoff) && |all| >= 2 && base == all[1].offset
    modifies file
    ensures CompactState(old(file[..]), file[..], headers, base, newHeaders, offset, |headers| - 1)
  {
    ghost var original := file[..];
    newHeaders := headers;
    var first := ReadSection(file, 1, all, shoff);
    offset := first.offset;
    CompactStart(original, headers, base);
    for j := 0 to |headers| - 1
      invariant CompactState(original, file[..], headers, base, newHeaders, offset, j)
    {
      newHeaders, offset := CompactOne(file, headers, indexes, newHeaders, offset, j, original, all, base, shoff);
    }
  }

  ghost predicate Selected(headers: seq<Shdr>, indexes: seq<nat>, all: seq<Shdr>) {
    && |headers| == |indexes|
    && forall k {:trigger indexes[k]} | 0 <= k < |indexes| :: indexes[k] < |all| && headers[k] == all[indexes[k]]
  }

  /** One section: aligned, and moved unless it is in place already. */
  method MoveSection(file: array<Byte>, oldSh: Shdr, position: nat, ghost original: seq<Byte>, ghost chunks: seq<Chunk>,
                     ghost data: seq<seq<Byte>>, ghost base: nat, ghost i: nat) returns (place: nat)
    requires ValidChunks(chunks) && Fits(chunks, data) && i < |chunks| && chunks[i] == ChunkOf(oldSh)
    requires Moved(original, file[..], chunks, data, base, i) && position == End(chunks, base, i)
    requires Start(chunks, base, i) <= oldSh.offset && oldSh.offset + oldSh.size <= |original|
    requires data[i] == SectionBytes(original, oldSh)
    modifies file
    ensures Moved(original, file[..], chunks, data, base, i + 1) && place == Start(chunks, base, i)
  {
    place := position;
    Untouched(original, file[..], base, position, oldSh);
    if oldSh.align > 1 {
      place := RoundUp(position, oldSh.align);
    }
    assert place == Start(chunks, base, i);
    ghost var before := file[..];
    if oldSh.offset != place {
      MoveBytes(file, place, oldSh.offset, oldSh.size);
    } else {
      InPlace(file[..], oldSh);
    }
    MoveStep(original, before, file[..], chunks, data, base, i);
  }

  lemma InPlace(file: seq<Byte>, s: Shdr)
    requires s.offset + s.size <= |file|
    ensures Placed(file, s.offset, SectionBytes(file, s))
  {
  }

  // ----- the new section headers -----

  function TableBytes(headers: seq<Shdr>): (bytes: seq<Byte>)
    ensures |bytes| == SHDR_SIZE * |headers|
  {
    if headers == [] then [] else TableBytes(headers[..|headers| - 1]) + ShdrBytes(headers[|headers| - 1])
  }

  lemma {:induction false} TablePlaced(file: seq<Byte>, at: nat, headers: seq<Shdr>, k: nat)
    requires Placed(file, at, TableBytes(headers)) && k < |headers|
    ensures ShdrAt(file, at + SHDR_SIZE * k) == headers[k]
    decreases |headers|
  {
    var last := |headers| - 1;
    PlacedPieces(file, at, TableBytes(headers[..last]), ShdrBytes(headers[last]));
    if k < last {
      TablePlaced(file, at, headers[..last], k);
    } else {
      ShdrPlaced(file, at + SHDR_SIZE * last, headers[last]);
    }
  }

  /** Writes the table and the two fields of the file header that locate it. */
  method WriteHeaders(file: array<Byte>, offset: Word32, headers: seq<Shdr>) returns (size: nat)
    requires EHDR_SIZE <= offset && offset + SHDR_SIZE * |headers| <= file.Length && |headers| < 0x1_0000
    modifies file
    ensures size == offset + SHDR_SIZE * |headers|
    ensures Placed(file[..], offset, TableBytes(headers))
    ensures Placed(file[..], E_SHNUM, HalfBytes(|headers|)) && Placed(file[..], E_SHOFF, WordBytes(offset))
    ensures forall p: nat | p < offset && Fixed(p) :: At(file[..], p) == At(old(file[..]), p)
  {
    CopyIn(file, offset, TableBytes(headers));
    size := offset + SHDR_SIZE * |headers|;
    ghost var c2 := file[..];
    CopyIn(file, E_SHNUM, HalfBytes(|headers|));
    ghost var c3 := file[..];
    CopyIn(file, E_SHOFF, WordBytes(offset));
    PlacedStays(c2, c3, E_SHNUM, E_SHNUM + 2, offset, TableBytes(headers));
    PlacedStays(c3, file[..], E_SHOFF, E_SHOFF + 4, offset, TableBytes(headers));
    PlacedStays(c3, file[..], E_SHOFF, E_SHOFF + 4, E_SHNUM, HalfBytes(|headers|));
  }

  // ----- the stripped file -----

  /** Bytes before `size` survive the truncation. */
  lemma PlacedCut(file: seq<Byte>, size: nat, at: nat, bytes: seq<Byte>)
    requires Placed(file, at, bytes) && at + |bytes| <= size <= |file|
    ensures Placed(file[..size], at, bytes)
  {
    forall i | 0 <= i < |bytes| ensures At(file[..size], at + i) == bytes[i] {
      assert At(file, at + i) == bytes[i];
    }
  }

  /** A file that can be stripped. */
  ghost predicate WellFormed(file: seq<Byte>) {
    var all, shoff := Sections(file), Shoff(file);
    && |all| >= 2 && shoff + SHDR_SIZE * |all| <= |file|
    && all[0].name == 0 && (forall i {:trigger all[i]} | 1 <= i < |all| :: all[i].name != 0)
    && EHDR_SIZE <= all[1].offset && InOrder(all, all[1].offset, shoff)
  }

  /** The headers of the sections that are kept. */
  ghost function Remaining(file: seq<Byte>): seq<Shdr> {
    KeptSections(Sections(file), KeepFlags(file), Shnum(file))
  }

  /** The section headers in `out`. */
  ghost predicate HeadersAre(out: seq<Byte>, offset: nat, headers: seq<Shdr>) {
    forall k {:trigger HeaderIs(out, offset, k, headers[k])} | 0 <= k < |headers| :: HeaderIs(out, offset, k, headers[k])
  }

  ghost predicate HeaderIs(out: seq<Byte>, offset: nat, k: nat, h: Shdr) {
    ShdrAt(out, offset + SHDR_SIZE * k) == h
  }

  /** Bytes of the file header that are not rewritten. */
  predicate Fixed(p: nat) {
    !(E_SHOFF <= p < E_SHOFF + 4) && !(E_SHNUM <= p < E_SHNUM + 2)
  }

  /** `out` is `file` with only the sections `kept`: their headers, with new offsets, behind their
      bytes, and what comes before the sections as it was. */
  ghost predicate IsStripped(file: seq<Byte>, out: seq<Byte>, kept: seq<Shdr>, base: nat, headers: seq<Shdr>)
    requires |kept| >= 1 && Inside(kept, |file|)
  {
    var chunks := ChunksOf(kept);
    && Shnum(out) == |headers| && Shoff(out) == End(chunks, base, |chunks|) && |out| == Shoff(out) + SHDR_SIZE * |headers|
    && HeadersAre(out, Shoff(out), headers) && HeadersUpTo(kept, base, headers, |chunks|)
    && ChunksPlaced(out, 0, chunks, DataOf(file, kept), base, |chunks|)
    && (forall p: nat | p < base && Fixed(p) :: At(out, p) == At(file, p))
  }

  lemma SectionsParse(file: seq<Byte>)
    ensures Parses(file, Sections(file), Shoff(file))
  {
  }

  ghost predicate Considered(file: seq<Byte>, i: nat, s: Shdr, wanted: bool) {
    Section(file, i) == s && Keeps(file, i) == wanted
  }

  ghost predicate AllConsidered(file: seq<Byte>, all: seq<Shdr>, keep: seq<bool>) {
    |all| == |keep| &&
    forall i {:trigger Considered(file, i, all[i], keep[i])} | 0 <= i < |all| :: Considered(file, i, all[i], keep[i])
  }

  lemma ConsideredMore(file: seq<Byte>, all: seq<Shdr>, keep: seq<bool>, s: Shdr, wanted: bool)
    requires AllConsidered(file, all, keep) && Considered(file, |all|, s, wanted)
    ensures AllConsidered(file, all + [s], keep + [wanted])
  {
    var all', keep' := all + [s], keep + [wanted];
    forall i | 0 <= i < |all'| ensures Considered(file, i, all'[i], keep'[i]) {
      if i < |all| {
        assert Considered(file, i, all[i], keep[i]);
      }
    }
  }

  lemma ConsideredIsParsed(file: seq<Byte>, all: seq<Shdr>, keep: seq<bool>)
    requires AllConsidered(file, all, keep) && |all| == Shnum(file)
    ensures all == Sections(file) && keep == KeepFlags(file)
  {
    forall i | 0 <= i < |all| ensures all[i] == Sections(file)[i] && keep[i] == KeepFlags(file)[i] {
      assert Considered(file, i, all[i], keep[i]);
    }
  }

  /** Reads a section header and decides about it. */
  method Consider(file: array<Byte>, i: nat) returns (s: Shdr, wanted: bool)
    ensures Considered(file[..], i, s, wanted)
  {
    s, wanted := Section(file[..], i), Keeps(file[..], i);
  }

  /** The selection loop. */
  method SelectSections(file: array<Byte>, count: nat)
    returns (headers: seq<Shdr>, indexes: seq<nat>, ghost all: seq<Shdr>, ghost keep: seq<bool>)
    ensures |all| == |keep| == count
    ensures AllConsidered(file[..], all, keep)
    ensures indexes == Kept(keep, count) && headers == KeptSections(all, keep, count)
  {
    headers, indexes, all, keep := [], [], [], [];
    for i := 0 to count
      invariant |all| == |keep| == i && AllConsidered(file[..], all, keep)
      invariant indexes == Kept(keep, i) && headers == KeptSections(all, keep, i)
    {
      var s, wanted := Consider(file, i);
      KeptMore(all, keep, s, wanted);
      ConsideredMore(file[..], all, keep, s, wanted);
      all, keep := all + [s], keep + [wanted];
      if wanted {
        headers, indexes := headers + [s], indexes + [i];
      }
    }
  }

  lemma {:induction false} KeptPrefix(all: seq<Shdr>, keep: seq<bool>, s: Shdr, wanted: bool, n: nat)
    requires |all| == |keep| && n <= |all|
    ensures Kept(keep + [wanted], n) == Kept(keep, n)
    ensures KeptSections(all + [s], keep + [wanted], n) == KeptSections(all, keep, n)
  {
    if n > 0 {
      KeptPrefix(all, keep, s, wanted, n - 1);
    }
  }

  lemma {:induction false} KeptMore(all: seq<Shdr>, keep: seq<bool>, s: Shdr, wanted: bool)
    requires |all| == |keep|
    ensures Kept(keep + [wanted], |all| + 1) == Kept(keep, |all|) + if wanted then [|all|] else []
    ensures KeptSections(all + [s], keep + [wanted], |all| + 1) ==
            KeptSections(all, keep, |all|) + if wanted then [s] else []
  {
    KeptPrefix(all, keep, s, wanted, |all|);
  }

  method Select(file: array<Byte>) returns (headers: seq<Shdr>, indexes: seq<nat>)
    ensures indexes == Kept(KeepFlags(file[..]), Shnum(file[..])) && headers == Remaining(file[..])
  {
    ghost var all, keep;
    headers, indexes, all, keep := SelectSections(file, Shnum(file[..]));
    ConsideredIsParsed(file[..], all, keep);
  }

  /** What the selection hands to the compaction. */
  lemma SelectionReady(file: seq<Byte>, headers: seq<Shdr>, indexes: seq<nat>)
    requires WellFormed(file) && indexes == Kept(KeepFlags(file), Shnum(file)) && headers == Remaining(file)
    ensures Ready(file, headers, indexes, Sections(file), Sections(file)[1].offset, Shoff(file))
    ensures |headers| <= Shnum(file)
  {
    var all, keep := Sections(file), KeepFlags(file);
    assert all[0] == Section(file, 0);
    KeptInOrder(all, keep, all[1].offset, Shoff(file), |all|);
    OrderedInside(headers, all[1].offset, Shoff(file), |file|);
    KeptCount(keep, |all|);
    SectionsParse(file);
  }

  lemma {:induction false} KeptCount(keep: seq<bool>, n: nat)
    requires n <= |keep|
    ensures |Kept(keep, n)| <= n
  {
    if n > 0 {
      KeptCount(keep, n - 1);
    }
  }

  /** The compaction never reaches the old section headers. */
  lemma {:induction false} EndsEarly(headers: seq<Shdr>, base: nat, shoff: nat)
    requires InOrder(headers, base, shoff)
    ensures base <= End(ChunksOf(headers), base, |headers| - 1) <= shoff
  {
    if |headers| > 1 {
      MovesDown(headers, base, shoff, |headers| - 2);
    }
  }

  /** `Strip`: the result is the file with only the sections that are kept. */
  method Strip(file: array<Byte>) returns (size: nat, ghost headers: seq<Shdr>)
    requires WellFormed(file[..])
    modifies file
    ensures |Remaining(old(file[..]))| >= 1 && Inside(Remaining(old(file[..])), file.Length) && size <= file.Length
    ensures IsStripped(old(file[..]), file[..size], Remaining(old(file[..])), Sections(old(file[..]))[1].offset, headers)
  {
    ghost var original := file[..];
    ghost var all, base, shoff := Sections(original), Sections(original)[1].offset, Shoff(original);
    var kept, indexes := Select(file);
    SelectionReady(original, kept, indexes);
    var newHeaders, offset := Compact(file, kept, indexes, all, base, shoff);
    EndsEarly(kept, base, shoff);
    ghost var compacted := file[..];
    size := WriteHeaders(file, offset, newHeaders);
    headers := newHeaders;
    StrippedAtLast(original, compacted, file[..], kept, base, newHeaders, offset, size);
  }

  lemma {:induction false} StrippedAtLast(original: seq<Byte>, compacted: seq<Byte>, file: seq<Byte>, kept: seq<Shdr>,
                                          base: nat, headers: seq<Shdr>, offset: Word32, size: nat)
    requires |kept| >= 1 && Inside(kept, |original|) && EHDR_SIZE <= base <= offset && |headers| < 0x1_0000
    requires CompactState(original, compacted, kept, base, headers, offset, |kept| - 1)
    requires size == offset + SHDR_SIZE * |headers| <= |file|
    requires Placed(file, offset, TableBytes(headers))
    requires Placed(file, E_SHNUM, HalfBytes(|headers|)) && Placed(file, E_SHOFF, WordBytes(offset))
    requires forall p: nat | p < offset && Fixed(p) :: At(file, p) == At(compacted, p)
    ensures IsStripped(original, file[..size], kept, base, headers)
  {
    var out := file[..size];
    HeadersSurvive(file, size, offset, headers);
    CutAgrees(file, size, compacted, offset);
    DataStays(original, compacted, out, kept, base, offset);
    PrefixStays(original, compacted, out, base, offset);
  }

  lemma {:induction false} HeadersSurvive(file: seq<Byte>, size: nat, offset: Word32, headers: seq<Shdr>)
    requires EHDR_SIZE <= offset && |headers| < 0x1_0000 && size == offset + SHDR_SIZE * |headers| <= |file|
    requires Placed(file, offset, TableBytes(headers))
    requires Placed(file, E_SHNUM, HalfBytes(|headers|)) && Placed(file, E_SHOFF, WordBytes(offset))
    ensures Shnum(file[..size]) == |headers| && Shoff(file[..size]) == offset
    ensures HeadersAre(file[..size], offset, headers)
  {
    FileHeaderReadBack(file, size, offset, |headers|);
    PlacedCut(file, size, offset, TableBytes(headers));
    HeadersReadBack(file[..size], headers, offset);
  }

  lemma CutAgrees(file: seq<Byte>, size: nat, compacted: seq<Byte>, offset: nat)
    requires offset <= size <= |file|
    requires forall p: nat | p < offset && Fixed(p) :: At(file, p) == At(compacted, p)
    ensures forall p: nat | p < offset && Fixed(p) :: At(file[..size], p) == At(compacted, p)
  {
    forall p: nat | p < offset && Fixed(p) ensures At(file[..size], p) == At(compacted, p) {
      assert At(file[..size], p) == At(file, p);
    }
  }

  lemma PrefixStays(original: seq<Byte>, compacted: seq<Byte>, out: seq<Byte>, base: nat, offset: nat)
    requires base <= offset && SameOutside(original, compacted, base, offset)
    requires forall p: nat | p < offset && Fixed(p) :: At(out, p) == At(compacted, p)
    ensures forall p: nat | p < base && Fixed(p) :: At(out, p) == At(original, p)
  {
    forall p: nat | p < base && Fixed(p) ensures At(out, p) == At(original, p) {
      assert At(compacted, p) == At(original, p);
    }
  }

  lemma FileHeaderReadBack(file: seq<Byte>, size: nat, offset: Word32, count: nat)
    requires Placed(file, E_SHNUM, HalfBytes(count)) && Placed(file, E_SHOFF, WordBytes(offset)) && count < 0x1_0000
    requires EHDR_SIZE <= size <= |file|
    ensures Shnum(file[..size]) == count && Shoff(file[..size]) == offset
  {
    PlacedCut(file, size, E_SHNUM, HalfBytes(count));
    PlacedCut(file, size, E_SHOFF, WordBytes(offset));
    HalfPlaced(file[..size], E_SHNUM, count);
    WordPlaced(file[..size], E_SHOFF, offset);
  }

  lemma {:induction false} HeadersReadBack(out: seq<Byte>, headers: seq<Shdr>, offset: nat)
    requires Placed(out, offset, TableBytes(headers))
    ensures HeadersAre(out, offset, headers)
  {
    forall k: nat | k < |headers| ensures HeaderIs(out, offset, k, headers[k]) {
      TablePlaced(out, offset, headers, k);
    }
  }

  lemma DataStays(original: seq<Byte>, compacted: seq<Byte>, out: seq<Byte>, kept: seq<Shdr>, base: nat, offset: nat)
    requires |kept| >= 1 && Inside(kept, |original|) && EHDR_SIZE <= base && offset == End(ChunksOf(kept), base, |kept| - 1)
    requires ChunksPlaced(compacted, 0, ChunksOf(kept), DataOf(original, kept), base, |kept| - 1)
    requires forall p: nat | p < offset && Fixed(p) :: At(out, p) == At(compacted, p)
    ensures ChunksPlaced(out, 0, ChunksOf(kept), DataOf(original, kept), base, |kept| - 1)
  {
    var chunks, data := ChunksOf(kept), DataOf(original, kept);
    forall k | 0 <= k < |chunks| ensures Placed(out, 0 + Start(chunks, base, k), data[k]) {
      StartWithin(chunks, base, k);
      EndGrows(chunks, base, k, k);
      assert Placed(compacted, 0 + Start(chunks, base, k), data[k]);
      forall i | 0 <= i < |data[k]| ensures At(out, Start(chunks, base, k) + i) == data[k][i] {
        assert At(compacted, 0 + Start(chunks, base, k) + i) == data[k][i];
      }
    }
  }

  /** The headers of the stripped file: sections aligned, disjoint and in order, none moved up. */
  lemma {:induction false} StrippedInOrder(kept: seq<Shdr>, base: nat, shoff: nat, headers: seq<Shdr>, j: nat, k: nat)
    requires InOrder(kept, base, shoff) && HeadersUpTo(kept, base, headers, |kept| - 1) && 1 <= j < k < |kept|
    ensures headers[j].offset + headers[j].size <= headers[k].offset
    ensures headers[k].offset + headers[k].size <= End(ChunksOf(kept), base, |kept| - 1)
    ensures headers[j].offset <= kept[j].offset
    ensures headers[j].align > 1 ==> headers[j].offset % headers[j].align == 0
  {
    assert IsNewHeader(kept, base, j, headers[j]) && IsNewHeader(kept, base, k, headers[k]);
    ChunksDisjoint(ChunksOf(kept), base, j - 1, k - 1);
    StartWithin(ChunksOf(kept), base, k - 1);
    MovesDown(kept, base, shoff, j - 1);
  }
}
