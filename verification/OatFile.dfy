/**
 Opening an oat file: the table of dex files behind the oat header is walked, and every entry leads to its
 dex file and to the class records of its classes. Only bytes of the file are read.
 */
module OatFile {
  import opened Bytes
  import opened Streams
  import opened Chunks
  import opened ElfFormat
  import opened ElfLayout
  import opened OatMaps
  import opened OatWriter
  import opened OatReader

  /** An entry of the table: the dex file stands `dexOffset` bytes behind the begin of the oat file, the
      offsets of its classes at `offsetsAt`. */
  datatype OatDexFile = OatDexFile(location: seq<Byte>, checksum: Word32, dexOffset: nat, offsetsAt: nat)

  /** "dex\n035\0", which a dex file begins with. */
  const DEX_MAGIC: seq<Byte> := [0x64, 0x65, 0x78, 0x0A, 0x30, 0x33, 0x35, 0x00]

  /** Where the header of a dex file has the number of its classes. */
  const CLASS_DEFS_SIZE: nat := 96

  function BytesAt(contents: seq<Byte>, at: nat, n: nat): seq<Byte> {
    seq<Byte>(n, k requires 0 <= k < n => At(contents, at + k))
  }

  /** `GetOatClassOffset`. */
  function GetOatClassOffset(contents: seq<Byte>, f: OatDexFile, k: nat): nat {
    WordAt(contents, f.offsetsAt + 4 * k)
  }

  /** A dex file whose header agrees with its classes. */
  ghost predicate HeaderOk(d: DexFile) {
    |d.data| >= CLASS_DEFS_SIZE + 4 && WordAt(d.data, CLASS_DEFS_SIZE) == |d.classes|
  }

  /** What opening an oat file demands of a dex file in it. */
  ghost predicate Accepted(d: DexFile) {
    d.location != [] && DEX_MAGIC <= d.data
  }

  /** The entry is that of `d`: its name and its checksum, and it leads to its bytes and to the record of every
      class. */
  ghost predicate DexFileReads(contents: seq<Byte>, base: nat, mem: Memory, thumb: nat, f: OatDexFile, d: DexFile) {
    && f.location == d.location && f.checksum == d.checksum
    && f.dexOffset % 4 == 0 && Placed(contents, base + f.dexOffset, d.data)
    && forall k {:trigger d.classes[k]} | 0 <= k < |d.classes| ::
         ClassReads(contents, base, mem, thumb, base + GetOatClassOffset(contents, f, k), d.classes[k])
  }

  // ----- one entry -----

  lemma {:induction false} FlatFive(f: seq<seq<Byte>>)
    requires |f| == 5
    ensures Flat(f) == f[0] + f[1] + f[2] + f[3] + f[4]
  {
    var f4 := f[..4];
    FlatFour(f4);
  }

  lemma {:induction false} FiveParts(a: seq<Byte>, b: seq<Byte>, c: seq<Byte>, d: seq<Byte>, e: seq<Byte>)
    ensures var all, n := a + b + c + d + e, |a| + |b|;
            && all[..|a|] == a && all[|a|..n] == b && all[n..n + |c|] == c
            && all[n + |c|..n + |c| + |d|] == d && all[n + |c| + |d|..] == e
  {
  }

  /** The five fields of an entry, as they are read. */
  lemma {:induction false} EntryFields(contents: seq<Byte>, at: nat, d: DexFile, dexOffset: nat, offsets: seq<nat>)
    requires |d.location| < TWO32 && dexOffset < TWO32
    requires Placed(contents, at, Flat(DexFileFields(d, dexOffset, offsets)))
    ensures WordAt(contents, at) == |d.location| && Placed(contents, at + 4, d.location)
    ensures WordAt(contents, at + 4 + |d.location|) == d.checksum
    ensures WordAt(contents, at + 8 + |d.location|) == dexOffset
    ensures Placed(contents, at + 12 + |d.location|, WordsBytes(offsets))
  {
    var f, n := DexFileFields(d, dexOffset, offsets), |d.location|;
    FlatFive(f);
    FiveParts(f[0], f[1], f[2], f[3], f[4]);
    WordIsItself(dexOffset);
    var bytes := Flat(f);
    WordInside(contents, at, bytes, 0, n);
    PartPlaced(contents, at, bytes, 4, d.location);
    WordInside(contents, at, bytes, 4 + n, d.checksum);
    WordInside(contents, at, bytes, 8 + n, dexOffset);
    PartPlaced(contents, at, bytes, 12 + n, WordsBytes(offsets));
  }

  lemma BytesRead(contents: seq<Byte>, at: nat, bytes: seq<Byte>)
    requires Placed(contents, at, bytes)
    ensures BytesAt(contents, at, |bytes|) == bytes
  {
  }

  lemma WordOfPart(contents: seq<Byte>, at: nat, bytes: seq<Byte>, from: nat)
    requires Placed(contents, at, bytes) && from + 4 <= |bytes|
    ensures WordAt(contents, at + from) == WordAt(bytes, from)
  {
    assert At(contents, at + from) == bytes[from];
    assert At(contents, at + (from + 1)) == bytes[from + 1];
    assert At(contents, at + (from + 2)) == bytes[from + 2];
    assert At(contents, at + (from + 3)) == bytes[from + 3];
  }

  /** The magic number is read as it is, and so is the number of classes. */
  lemma DexHeaderReads(contents: seq<Byte>, at: nat, d: DexFile)
    requires HeaderOk(d) && Placed(contents, at, d.data)
    ensures BytesAt(contents, at, 8) == DEX_MAGIC <==> DEX_MAGIC <= d.data
    ensures WordAt(contents, at + CLASS_DEFS_SIZE) == |d.classes|
  {
    var magic := d.data[..8];
    PartPlaced(contents, at, d.data, 0, magic);
    BytesRead(contents, at, magic);
    WordOfPart(contents, at, d.data, CLASS_DEFS_SIZE);
  }

  /** The entry of `d` stands at `at` in an oat file of `size` bytes, and the dex file at `dexOffset`. */
  ghost predicate EntryAt(contents: seq<Byte>, base: nat, size: nat, at: nat, d: DexFile, dexOffset: nat,
                          offsets: seq<nat>)
  {
    && |d.location| < TWO32 && 0 < dexOffset <= size < TWO32 && |offsets| == |d.classes|
    && Placed(contents, at, Flat(DexFileFields(d, dexOffset, offsets)))
    && Placed(contents, base + dexOffset, d.data) && at + DexFileSize(d) <= base + size
  }

  /** One turn of the loop of `Setup`: reads the entry at `at` of an oat file of `size` bytes. */
  method ReadDexFile(contents: seq<Byte>, base: nat, size: nat, at: nat, ghost d: DexFile, ghost dexOffset: nat,
                     ghost offsets: seq<nat>)
    returns (f: Option<OatDexFile>, next: nat)
    requires HeaderOk(d) && EntryAt(contents, base, size, at, d, dexOffset, offsets)
    ensures f.Some? <==> Accepted(d)
    ensures f.Some? ==>
              && f.value == OatDexFile(d.location, d.checksum, dexOffset, at + 12 + |d.location|)
              && next == at + DexFileSize(d)
  {
    EntryFields(contents, at, d, dexOffset, offsets);
    BytesRead(contents, at + 4, d.location);
    DexHeaderReads(contents, base + dexOffset, d);
    f, next := None, at;
    var length := WordAt(contents, next);
    if length == 0 { return; }
    next := next + 4;
    if next > base + size { return; }
    var location := BytesAt(contents, next, length);
    next := next + length;
    if next > base + size { return; }
    var checksum := WordAt(contents, next);
    next := next + 4;
    if next > base + size { return; }
    var offset := WordAt(contents, next);
    if offset == 0 || offset > size { return; }
    next := next + 4;
    if next > base + size { return; }
    if BytesAt(contents, base + offset, 8) != DEX_MAGIC { return; }
    var offsetsAt := next;
    next := next + 4 * WordAt(contents, base + offset + CLASS_DEFS_SIZE);
    if next > base + size { return; }
    f := Some(OatDexFile(location, checksum, offset, offsetsAt));
  }

  // ----- the table -----

  /** The classes of all dex files, one dex file after the other. */
  lemma {:induction false} ClassAt(dexFiles: seq<DexFile>, i: nat, k: nat)
    requires i < |dexFiles| && k < |dexFiles[i].classes|
    ensures |Classes(dexFiles[..i])| + k < |Classes(dexFiles)|
    ensures Classes(dexFiles)[|Classes(dexFiles[..i])| + k] == dexFiles[i].classes[k]
  {
    var n := |dexFiles| - 1;
    if i < n {
      ClassAt(dexFiles[..n], i, k);
      assert dexFiles[..n][..i] == dexFiles[..i];
    }
  }

  lemma {:induction false} ClassOffsetAt(dexFiles: seq<DexFile>, offsets: seq<nat>, i: nat, k: nat)
    requires i < |dexFiles| && |offsets| == |Classes(dexFiles)| && k < |dexFiles[i].classes|
    ensures |Classes(dexFiles[..i])| + k < |offsets|
    ensures ClassOffsetsOf(dexFiles, offsets, i)[k] == offsets[|Classes(dexFiles[..i])| + k]
  {
    ClassesPrefix(dexFiles, i);
    ClassesPrefix(dexFiles, i + 1);
  }

  /** What the table holds of dex file `i`. */
  ghost predicate EntryPlaced(contents: seq<Byte>, base: nat, oat: Oat, i: nat) {
    var d, l := oat.input.dexFiles, oat.layout;
    && LocationsOk(d) && |l.tables| == |l.dex| == |d| && |l.classes| == |Classes(d)| && i < |d|
    && Placed(contents, base + l.tables[i], Flat(TableRecord(d, l.dex, l.classes, i)))
    && Placed(contents, base + l.dex[i], d[i].data)
  }

  lemma EntryOfTables(contents: seq<Byte>, base: nat, oat: Oat, i: nat)
    requires IsOat(oat) && TablesPlaced(contents, base, oat.input, oat.marks, oat.layout)
    requires i < |oat.input.dexFiles|
    ensures EntryPlaced(contents, base, oat, i)
  {
    assert |oat.layout.tables| == |oat.layout.dex| == |oat.input.dexFiles|;
  }

  lemma EntryIsPlaced(contents: seq<Byte>, base: nat, oat: Oat, i: nat)
    requires OatPlaced(contents, base, oat) && i < |oat.input.dexFiles|
    ensures EntryPlaced(contents, base, oat, i)
  {
    assert IsOatAt(contents, base, oat);
    EntryOfTables(contents, base, oat, i);
  }

  /** The entries follow each other, before the dex files. */
  lemma {:induction false} TablesFollow(dexFiles: seq<DexFile>, start: nat, i: nat)
    requires i < |dexFiles|
    ensures var chunks := TableChunks(dexFiles);
            && Start(chunks, start, i) == End(chunks, start, i)
            && End(chunks, start, i + 1) == End(chunks, start, i) + DexFileSize(dexFiles[i])
            && End(chunks, start, i + 1) <= End(chunks, start, |chunks|)
  {
    var chunks := TableChunks(dexFiles);
    UnalignedStart(chunks, start, i);
    EndGrows(chunks, start, i + 1, |chunks|);
  }

  lemma {:induction false} DexAligned(dexFiles: seq<DexFile>, start: nat, i: nat)
    requires i < |dexFiles|
    ensures var chunks := DexChunks(dexFiles);
            && start <= Start(chunks, start, i) <= End(chunks, start, |chunks|)
            && Start(chunks, start, i) % 4 == 0
  {
    StartWithin(DexChunks(dexFiles), start, i);
  }

  /** Where the entry of dex file `i` and the dex file itself stand. */
  lemma EntryBounds(oat: Oat, i: nat)
    requires ValidOat(oat) && i < |oat.input.dexFiles|
    ensures var chunks, l := TableChunks(oat.input.dexFiles), oat.layout;
            && |l.tables| == |l.dex| == |oat.input.dexFiles|
            && l.tables[i] == End(chunks, oat.marks.tables, i)
            && End(chunks, oat.marks.tables, i + 1) == l.tables[i] + DexFileSize(oat.input.dexFiles[i])
            && l.tables[i] + DexFileSize(oat.input.dexFiles[i]) <= l.size < TWO32
            && 0 < l.dex[i] <= l.size && l.dex[i] % 4 == 0
  {
    assert IsOat(oat);
    MarksOrdered(oat.input, oat.marks);
    TablesFollow(oat.input.dexFiles, oat.marks.tables, i);
    DexAligned(oat.input.dexFiles, oat.marks.dex, i);
  }

  lemma ClassBounds(oat: Oat, n: nat)
    requires ValidOat(oat) && n < |Classes(oat.input.dexFiles)|
    ensures n < |oat.layout.classes| && oat.layout.classes[n] < TWO32
  {
    assert IsOat(oat);
    MarksOrdered(oat.input, oat.marks);
    StartWithin(ClassChunks(Classes(oat.input.dexFiles)), oat.marks.classes, n);
  }

  lemma {:induction false} OffsetReads(contents: seq<Byte>, at: nat, offsets: seq<nat>, k: nat)
    requires Placed(contents, at, WordsBytes(offsets)) && k < |offsets| && offsets[k] < TWO32
    ensures WordAt(contents, at + 4 * k) == offsets[k]
  {
    var bytes := WordsBytes(offsets);
    TableWordAt(offsets, k);
    WordInside(contents, at, bytes, 4 * k, offsets[k]);
  }

  /** The offset in the entry is that of the class. */
  lemma ClassOffsetReads(contents: seq<Byte>, base: nat, oat: Oat, i: nat, f: OatDexFile, k: nat)
    requires OatPlaced(contents, base, oat) && i < |oat.input.dexFiles| && i < |oat.layout.tables|
    requires f.offsetsAt == base + oat.layout.tables[i] + 12 + |oat.input.dexFiles[i].location|
    requires k < |oat.input.dexFiles[i].classes|
    ensures var n := |Classes(oat.input.dexFiles[..i])| + k;
            n < |oat.layout.classes| && GetOatClassOffset(contents, f, k) == oat.layout.classes[n]
  {
    var d, l, n := oat.input.dexFiles, oat.layout, |Classes(oat.input.dexFiles[..i])| + k;
    EntryIsAt(contents, base, oat, i);
    var offsets := ClassOffsetsOf(d, l.classes, i);
    assert Placed(contents, f.offsetsAt, WordsBytes(offsets)) by {
      EntryFields(contents, base + l.tables[i], d[i], l.dex[i], offsets);
    }
    assert n < |l.classes| && l.classes[n] < TWO32 by {
      ClassAt(d, i, k);
      OatIsValid(contents, base, oat);
      ClassBounds(oat, n);
    }
    ClassOffsetAt(d, l.classes, i, k);
    OffsetReads(contents, f.offsetsAt, offsets, k);
  }

  lemma OatIsValid(contents: seq<Byte>, base: nat, oat: Oat)
    requires OatPlaced(contents, base, oat)
    ensures ValidOat(oat)
  {
    assert IsOatAt(contents, base, oat);
  }

  /** The `k`th class offset of an entry leads to the record of the `k`th class of the dex file. */
  lemma ClassFoundAt(contents: seq<Byte>, base: nat, oat: Oat, i: nat, f: OatDexFile, k: nat)
    requires OatPlaced(contents, base, oat) && i < |oat.input.dexFiles| && i < |oat.layout.tables|
    requires f.offsetsAt == base + oat.layout.tables[i] + 12 + |oat.input.dexFiles[i].location|
    requires k < |oat.input.dexFiles[i].classes|
    ensures ClassReads(contents, base, oat.input.mem, oat.input.isa.thumb,
                       base + GetOatClassOffset(contents, f, k), oat.input.dexFiles[i].classes[k])
  {
    ClassOffsetReads(contents, base, oat, i, f, k);
    ClassAt(oat.input.dexFiles, i, k);
    ClassFound(contents, base, oat, |Classes(oat.input.dexFiles[..i])| + k);
  }

  lemma DexFileFound(contents: seq<Byte>, base: nat, oat: Oat, i: nat, f: OatDexFile)
    requires OatPlaced(contents, base, oat) && i < |oat.input.dexFiles|
    requires i < |oat.layout.tables| && i < |oat.layout.dex|
    requires var d, l := oat.input.dexFiles[i], oat.layout;
             f == OatDexFile(d.location, d.checksum, l.dex[i], base + l.tables[i] + 12 + |d.location|)
    ensures DexFileReads(contents, base, oat.input.mem, oat.input.isa.thumb, f, oat.input.dexFiles[i])
  {
    var d := oat.input.dexFiles[i];
    assert f.dexOffset % 4 == 0 by {
      OatIsValid(contents, base, oat);
      EntryBounds(oat, i);
    }
    assert Placed(contents, base + f.dexOffset, d.data) by {
      EntryIsPlaced(contents, base, oat, i);
    }
    forall k | 0 <= k < |d.classes|
      ensures ClassReads(contents, base, oat.input.mem, oat.input.isa.thumb,
                         base + GetOatClassOffset(contents, f, k), d.classes[k])
    {
      ClassFoundAt(contents, base, oat, i, f, k);
    }
  }

  lemma EntryIsAt(contents: seq<Byte>, base: nat, oat: Oat, i: nat)
    requires OatPlaced(contents, base, oat) && i < |oat.input.dexFiles|
    ensures var d, l := oat.input.dexFiles, oat.layout;
            && i < |l.tables| && i < |l.dex| && |l.classes| == |Classes(d)|
            && EntryAt(contents, base, l.size, base + l.tables[i], d[i], l.dex[i], ClassOffsetsOf(d, l.classes, i))
  {
    EntryIsPlaced(contents, base, oat, i);
    OatIsValid(contents, base, oat);
    EntryBounds(oat, i);
  }

  /** Entry `i` of the table, and where the next entry is. */
  method ReadEntry(contents: seq<Byte>, base: nat, size: nat, at: nat, ghost oat: Oat, ghost i: nat)
    returns (f: Option<OatDexFile>, next: nat)
    requires OatPlaced(contents, base, oat) && size == oat.layout.size && i < |oat.input.dexFiles|
    requires at == base + End(TableChunks(oat.input.dexFiles), oat.marks.tables, i) && HeaderOk(oat.input.dexFiles[i])
    ensures f.Some? <==> Accepted(oat.input.dexFiles[i])
    ensures f.Some? ==>
              && next == base + End(TableChunks(oat.input.dexFiles), oat.marks.tables, i + 1)
              && DexFileReads(contents, base, oat.input.mem, oat.input.isa.thumb, f.value, oat.input.dexFiles[i])
  {
    ghost var d, l := oat.input.dexFiles, oat.layout;
    OatIsValid(contents, base, oat);
    EntryBounds(oat, i);
    EntryIsAt(contents, base, oat, i);
    f, next := ReadDexFile(contents, base, size, at, d[i], l.dex[i], ClassOffsetsOf(d, l.classes, i));
    if f.Some? {
      DexFileFound(contents, base, oat, i, f.value);
    }
  }

  /** `Setup`: opens an oat file of `size` bytes at `base`, whose header with its key-value store has `header`
      bytes and counts `count` dex files. It succeeds if and only if every dex file has a name and begins with
      the magic number, and then every dex file is found with all its classes. */
  method Setup(contents: seq<Byte>, base: nat, size: nat, header: nat, count: nat, ghost oat: Oat)
    returns (files: Option<seq<OatDexFile>>)
    requires OatPlaced(contents, base, oat)
    requires size == oat.layout.size && header == |oat.input.header| && count == |oat.input.dexFiles|
    requires forall i | 0 <= i < count :: HeaderOk(oat.input.dexFiles[i])
    ensures files.Some? <==> forall i | 0 <= i < count :: Accepted(oat.input.dexFiles[i])
    ensures files.Some? ==> |files.value| == count
    ensures files.Some? ==>
              forall i {:trigger files.value[i]} | 0 <= i < count ::
                DexFileReads(contents, base, oat.input.mem, oat.input.isa.thumb, files.value[i], oat.input.dexFiles[i])
  {
    OatIsValid(contents, base, oat);
    HeaderFirst(oat);
    if header > size { return None; }
    var found: seq<OatDexFile> := [];
    var at := base + header;
    for i := 0 to count
      invariant |found| == i && at == base + End(TableChunks(oat.input.dexFiles), oat.marks.tables, i)
      invariant forall j | 0 <= j < i :: Accepted(oat.input.dexFiles[j])
      invariant forall j {:trigger found[j]} | 0 <= j < i ::
                  DexFileReads(contents, base, oat.input.mem, oat.input.isa.thumb, found[j], oat.input.dexFiles[j])
    {
      var f, next := ReadEntry(contents, base, size, at, oat, i);
      if f.None? { return None; }
      found, at := found + [f.value], next;
    }
    files := Some(found);
  }

  lemma HeaderFirst(oat: Oat)
    requires ValidOat(oat)
    ensures oat.marks.tables == |oat.input.header| <= oat.layout.size
  {
    assert IsOat(oat);
    MarksOrdered(oat.input, oat.marks);
  }
}
