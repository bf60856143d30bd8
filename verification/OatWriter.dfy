/**
 The oat writer: an init pass lays out the file and fixes every offset, a write pass produces it.
 The two passes share nothing but the offsets.
 */
module OatWriter {
  import opened Bytes
  import opened Streams
  import opened BufferedStream
  import opened Chunks
  import opened OatMaps
  import opened OatCode

  type Half = h: int | 0 <= h < 0x1_0000

  datatype Option<T> = None | Some(value: T)

  datatype CompiledMethod = CompiledMethod(code: Option<nat>, mapping: nat, vmap: nat, gcMap: nat, frame: Frame)

  /** A class: its status and its methods; a method without compiled code is `None`. */
  datatype DexClass = DexClass(status: Half, methods: seq<Option<CompiledMethod>>)

  datatype DexFile = DexFile(location: seq<Byte>, checksum: Word32, data: seq<Byte>, classes: seq<DexClass>)

  /** What is to be written. `header` is the oat header with its key-value store; `trampolines`
      is empty unless an image is compiled. */
  datatype Input = Input(mem: Memory, isa: Isa, pageSize: nat, header: seq<Byte>, dexFiles: seq<DexFile>,
                         trampolines: seq<seq<Byte>>)

  ghost predicate ValidInput(input: Input) {
    && ValidIsa(input.isa) && input.pageSize > 0 && input.header != []
    && CodeOk(input.mem, Visits(Methods(Classes(input.dexFiles))))
    && LocationsOk(input.dexFiles)
  }

  ghost predicate LocationsOk(dexFiles: seq<DexFile>) {
    forall i | 0 <= i < |dexFiles| :: |dexFiles[i].location| < TWO32
  }

  // ----- visiting order -----

  /** All classes in the order in which they are visited. */
  function Classes(dexFiles: seq<DexFile>): seq<DexClass> {
    if dexFiles == [] then [] else Classes(dexFiles[..|dexFiles| - 1]) + dexFiles[|dexFiles| - 1].classes
  }

  /** The compiled methods of one class. */
  function Compiled(methods: seq<Option<CompiledMethod>>): seq<CompiledMethod> {
    if methods == [] then []
    else
      var n := |methods| - 1;
      Compiled(methods[..n]) + if methods[n].Some? then [methods[n].value] else []
  }

  /** All compiled methods in the order in which they are visited. */
  function Methods(classes: seq<DexClass>): seq<CompiledMethod> {
    if classes == [] then [] else Methods(classes[..|classes| - 1]) + Compiled(classes[|classes| - 1].methods)
  }

  function Visits(methods: seq<CompiledMethod>): (visits: seq<Visit>)
    ensures |visits| == |methods|
  {
    seq(|methods|, i requires 0 <= i < |methods| => VisitOf(methods[i]))
  }

  function VisitOf(m: CompiledMethod): Visit {
    if m.code.None? then Portable else Quick(Key(m.code.value, m.mapping, m.vmap, m.gcMap))
  }

  function GcMaps(methods: seq<CompiledMethod>): (ids: seq<nat>) ensures |ids| == |methods| {
    seq(|methods|, i requires 0 <= i < |methods| => methods[i].gcMap)
  }

  function Mappings(methods: seq<CompiledMethod>): (ids: seq<nat>) ensures |ids| == |methods| {
    seq(|methods|, i requires 0 <= i < |methods| => methods[i].mapping)
  }

  function Vmaps(methods: seq<CompiledMethod>): (ids: seq<nat>) ensures |ids| == |methods| {
    seq(|methods|, i requires 0 <= i < |methods| => methods[i].vmap)
  }

  // ----- tables -----

  function WordsBytes(words: seq<nat>): (bytes: seq<Byte>)
    ensures |bytes| == 4 * |words|
  {
    if words == [] then [] else WordsBytes(words[..|words| - 1]) + WordBytes(words[|words| - 1] % TWO32)
  }

  lemma SliceOfFront(a: seq<Byte>, b: seq<Byte>, i: nat, k: nat)
    requires i <= k <= |a|
    ensures (a + b)[i..k] == a[i..k]
  {
  }

  lemma SliceOfBack(a: seq<Byte>, b: seq<Byte>, i: nat, k: nat)
    requires i <= k <= |b|
    ensures (a + b)[|a| + i..|a| + k] == b[i..k]
  {
  }

  /** A word of a written table is found at its index. */
  lemma {:induction false} TableWordAt(words: seq<nat>, i: nat)
    requires i < |words| && words[i] < TWO32
    ensures WordsBytes(words)[4 * i..4 * i + 4] == WordBytes(words[i])
  {
    var n := |words| - 1;
    var front, last := WordsBytes(words[..n]), WordBytes(words[n] % TWO32);
    assert WordsBytes(words) == front + last;
    if i < n {
      assert front[4 * i..4 * i + 4] == WordBytes(words[i]) by {
        TableWordAt(words[..n], i);
      }
      SliceOfFront(front, last, 4 * i, 4 * i + 4);
    } else {
      assert last == WordBytes(words[n]) by {
        WordIsItself(words[n]);
      }
      SliceOfBack(front, last, 0, 4);
      assert last[0..4] == last;
    }
  }

  /** The fields of an OatDexFile. */
  function DexFileFields(d: DexFile, dexOffset: nat, classOffsets: seq<nat>): (fields: seq<seq<Byte>>)
    requires |d.location| < TWO32
    ensures |fields| == 5
  {
    [WordBytes(|d.location|), d.location, WordBytes(d.checksum), WordBytes(dexOffset % TWO32), WordsBytes(classOffsets)]
  }

  function DexFileSize(d: DexFile): nat {
    4 + |d.location| + 4 + 4 + 4 * |d.classes|
  }

  /** 0: all methods compiled, 1: some, 2: none. */
  function ClassType(c: DexClass): Half {
    if |Compiled(c.methods)| == 0 then 2 else if |Compiled(c.methods)| == |c.methods| then 0 else 1
  }

  /** One byte of the bitmap of compiled methods. */
  function BitmapByte(methods: seq<Option<CompiledMethod>>, k: nat): Byte {
    BitOf(methods, 8 * k, 1) + BitOf(methods, 8 * k + 1, 2) + BitOf(methods, 8 * k + 2, 4)
    + BitOf(methods, 8 * k + 3, 8) + BitOf(methods, 8 * k + 4, 16) + BitOf(methods, 8 * k + 5, 32)
    + BitOf(methods, 8 * k + 6, 64) + BitOf(methods, 8 * k + 7, 128)
  }

  function BitOf(methods: seq<Option<CompiledMethod>>, i: nat, bit: nat): (b: nat)
    ensures b == 0 || b == bit
  {
    if i < |methods| && methods[i].Some? then bit else 0
  }

  /** The bitmap occupies whole words. */
  function BitmapBytes(methods: seq<Option<CompiledMethod>>): seq<Byte> {
    seq(4 * ((|methods| + 31) / 32), k requires k >= 0 => BitmapByte(methods, k))
  }

  /** The fields of an OatClass. */
  function ClassFields(c: DexClass, codeOffsets: seq<nat>): (fields: seq<seq<Byte>>)
    ensures |fields| == 4
  {
    [HalfBytes(c.status), HalfBytes(ClassType(c)),
     if ClassType(c) == 1 then WordBytes(|BitmapBytes(c.methods)| % TWO32) + BitmapBytes(c.methods) else [],
     WordsBytes(codeOffsets)]
  }

  function ClassSize(c: DexClass): nat {
    2 + 2 + (if ClassType(c) == 1 then 4 + |BitmapBytes(c.methods)| else 0) + 4 * |Compiled(c.methods)|
  }

  function Flat(fields: seq<seq<Byte>>): seq<Byte> {
    if fields == [] then [] else Flat(fields[..|fields| - 1]) + fields[|fields| - 1]
  }

  lemma DexFileFits(d: DexFile, dexOffset: nat, classOffsets: seq<nat>)
    requires |d.location| < TWO32 && |classOffsets| == |d.classes|
    ensures |Flat(DexFileFields(d, dexOffset, classOffsets))| == DexFileSize(d)
  {
    var f := DexFileFields(d, dexOffset, classOffsets);
    FlatLength5(f);
  }

  lemma {:induction false} FlatLength5(f: seq<seq<Byte>>)
    requires |f| == 5
    ensures |Flat(f)| == |f[0]| + |f[1]| + |f[2]| + |f[3]| + |f[4]|
  {
    FlatLength4(f[..4]);
  }

  lemma {:induction false} FlatLength4(f: seq<seq<Byte>>)
    requires |f| == 4
    ensures |Flat(f)| == |f[0]| + |f[1]| + |f[2]| + |f[3]|
  {
    var f3, f2, f1 := f[..3], f[..2], f[..1];
    assert f3[..2] == f2 && f2[..1] == f1 && f1[..0] == [];
    assert Flat(f1) == Flat([]) + f[0];
    assert Flat(f2) == Flat(f1) + f[1];
    assert Flat(f3) == Flat(f2) + f[2];
  }

  lemma {:induction false} CompiledRank(methods: seq<Option<CompiledMethod>>, j: nat)
    requires j < |methods| && methods[j].Some?
    ensures |Compiled(methods[..j])| < |Compiled(methods)|
    ensures Compiled(methods)[|Compiled(methods[..j])|] == methods[j].value
  {
    var n := |methods| - 1;
    if j < n {
      CompiledRank(methods[..n], j);
      assert methods[..n][..j] == methods[..j];
    }
  }

  /** `GetOatMethodOffsetsOffsetFromOatClass`: where a class keeps the code offset of method `j`. */
  function MethodSlot(c: DexClass, j: nat): nat
    requires j < |c.methods|
  {
    4 + (if ClassType(c) == 1 then 4 + |BitmapBytes(c.methods)| else 0) + 4 * |Compiled(c.methods[..j])|
  }

  /** The code offset of every compiled method is found at its slot of the written class. */
  lemma CodeOffsetFound(c: DexClass, codeOffsets: seq<nat>, j: nat)
    requires j < |c.methods| && c.methods[j].Some?
    requires |codeOffsets| == |Compiled(c.methods)|
    ensures |Compiled(c.methods[..j])| < |codeOffsets|
    ensures MethodSlot(c, j) + 4 <= |Flat(ClassFields(c, codeOffsets))|
    ensures var offset := codeOffsets[|Compiled(c.methods[..j])|];
            offset < TWO32 ==>
              Flat(ClassFields(c, codeOffsets))[MethodSlot(c, j)..MethodSlot(c, j) + 4] == WordBytes(offset)
  {
    CompiledRank(c.methods, j);
    ClassFits(c, codeOffsets);
    var rank := |Compiled(c.methods[..j])|;
    var fields := ClassFields(c, codeOffsets);
    var front := Flat(fields[..3]);
    FlatLength4(fields[..3] + [[]]);
    assert (fields[..3] + [[]])[..3] == fields[..3];
    if codeOffsets[rank] < TWO32 {
      TableWordAt(codeOffsets, rank);
      SliceOfBack(front, WordsBytes(codeOffsets), 4 * rank, 4 * rank + 4);
    }
  }

  lemma ClassFits(c: DexClass, codeOffsets: seq<nat>)
    requires |codeOffsets| == |Compiled(c.methods)|
    ensures |Flat(ClassFields(c, codeOffsets))| == ClassSize(c)
  {
    FlatLength4(ClassFields(c, codeOffsets));
  }

  // ----- the layout -----

  function TableChunks(dexFiles: seq<DexFile>): (c: seq<Chunk>)
    ensures |c| == |dexFiles| && ValidChunks(c)
  {
    seq(|dexFiles|, i requires 0 <= i < |dexFiles| => Chunk(DexFileSize(dexFiles[i]), 1))
  }

  /** Dex files begin at multiples of four. */
  function DexChunks(dexFiles: seq<DexFile>): (c: seq<Chunk>)
    ensures |c| == |dexFiles| && ValidChunks(c)
  {
    seq(|dexFiles|, i requires 0 <= i < |dexFiles| => Chunk(|dexFiles[i].data|, 4))
  }

  function ClassChunks(classes: seq<DexClass>): (c: seq<Chunk>)
    ensures |c| == |classes| && ValidChunks(c)
  {
    seq(|classes|, i requires 0 <= i < |classes| => Chunk(ClassSize(classes[i]), 1))
  }

  function TrampolineChunks(trampolines: seq<seq<Byte>>, isa: Isa): (c: seq<Chunk>)
    requires isa.align > 0
    ensures |c| == |trampolines| && ValidChunks(c)
  {
    seq(|trampolines|, i requires 0 <= i < |trampolines| => Chunk(|trampolines[i]|, isa.align))
  }

  /** The positions between the parts of the file. */
  datatype Marks = Marks(tables: nat, dex: nat, classes: nat, gcMaps: nat, mappings: nat, vmaps: nat, maps: nat,
                         exec: nat, code: nat, size: nat)

  /** Every part begins where the one before it ends; the code begins on a page. */
  ghost predicate IsMarks(input: Input, m: Marks)
    requires ValidInput(input)
  {
    var classes := Classes(input.dexFiles);
    var methods := Methods(classes);
    && m.tables == |input.header|
    && m.dex == End(TableChunks(input.dexFiles), m.tables, |input.dexFiles|)
    && m.classes == End(DexChunks(input.dexFiles), m.dex, |input.dexFiles|)
    && m.gcMaps == End(ClassChunks(classes), m.classes, |classes|)
    && m.mappings == m.gcMaps + Used(input.mem, GcMaps(methods), |methods|)
    && m.vmaps == m.mappings + Used(input.mem, Mappings(methods), |methods|)
    && m.maps == m.vmaps + Used(input.mem, Vmaps(methods), |methods|)
    && m.exec == RoundUp(m.maps, input.pageSize)
    && m.code == End(TrampolineChunks(input.trampolines, input.isa), m.exec, |input.trampolines|)
    && m.size == CodeEnd(input.mem, input.isa, Visits(methods), m.code, |methods|)
  }

  /** All offsets, as the init pass leaves them. */
  datatype Layout = Layout(tables: seq<nat>, dex: seq<nat>, classes: seq<nat>, headers: seq<MethodHeader>,
                           exec: nat, trampolines: seq<nat>, code: seq<nat>, size: nat,
                           dexAlignment: nat, execAlignment: nat)

  ghost predicate IsChunkLayout(offsets: seq<nat>, chunks: seq<Chunk>, start: nat)
    requires ValidChunks(chunks)
  {
    |offsets| == |chunks| && forall i | 0 <= i < |chunks| :: offsets[i] == Start(chunks, start, i)
  }

  /** The offsets are those of the layout. */
  ghost predicate IsLayout(input: Input, m: Marks, l: Layout)
    requires ValidInput(input)
  {
    var classes := Classes(input.dexFiles);
    && IsChunkLayout(l.tables, TableChunks(input.dexFiles), m.tables)
    && IsChunkLayout(l.dex, DexChunks(input.dexFiles), m.dex)
    && IsChunkLayout(l.classes, ClassChunks(classes), m.classes)
    && IsChunkLayout(l.trampolines, TrampolineChunks(input.trampolines, input.isa), m.exec)
    && IsCodeLayout(input.mem, input.isa, Methods(classes), m, l)
    && l.exec == m.exec && l.size == m.size && l.execAlignment == m.exec - m.maps
    && m.classes == m.dex + l.dexAlignment + TotalSize(DexChunks(input.dexFiles))
  }

  ghost predicate IsCodeLayout(mem: Memory, isa: Isa, methods: seq<CompiledMethod>, m: Marks, l: Layout)
    requires isa.align > 0
  {
    && |l.code| == |methods| && |l.headers| == |methods|
    && (forall i {:trigger l.code[i]} | 0 <= i < |methods| ::
          l.code[i] == CodeOffset(mem, isa, Visits(methods), m.code, i))
    && (forall i {:trigger l.headers[i]} | 0 <= i < |methods| ::
          l.headers[i] == HeaderFor(mem, isa, methods, m, i))
  }

  /** The header of method `i`: table offsets relative to the code, modulo 2^32. */
  ghost function HeaderFor(mem: Memory, isa: Isa, methods: seq<CompiledMethod>, m: Marks, i: nat): MethodHeader
    requires isa.align > 0 && i < |methods|
  {
    MakeHeader(mem, isa, methods[i], CodeOffset(mem, isa, Visits(methods), m.code, i),
               Offset(mem, Mappings(methods), m.mappings, i), Offset(mem, Vmaps(methods), m.vmaps, i),
               Offset(mem, GcMaps(methods), m.gcMaps, i))
  }

  /** The header built from the promised offsets; a portable method keeps what the table passes stored. */
  function MakeHeader(mem: Memory, isa: Isa, method_: CompiledMethod, codeOffset: nat, mapping: nat, vmap: nat,
                      gcMap: nat): MethodHeader
  {
    var portable := method_.code.None?;
    MethodHeader(StoredOffset(isa, portable, codeOffset, mapping), StoredOffset(isa, portable, codeOffset, vmap),
                 StoredOffset(isa, portable, codeOffset, gcMap),
                 if portable then Frame(0, 0, 0) else method_.frame,
                 if portable then 0 else |mem(method_.code.value)| % TWO32)
  }

  /** One table offset of a header, after the code has been placed. */
  function StoredOffset(isa: Isa, portable: bool, codeOffset: nat, offset: nat): Word32 {
    if portable then Stored(offset % TWO32)
    else Rebased(Stored(offset % TWO32), (codeOffset - isa.thumb) % TWO32)
  }

  /** `InitOatMaps`: the offsets of the three kinds of tables. */
  method InitOatMaps(mem: Memory, methods: seq<CompiledMethod>, start: nat)
    returns (gcMaps: seq<nat>, mappings: seq<nat>, vmaps: seq<nat>, end: nat)
    ensures IsMapLayout(mem, GcMaps(methods), start, gcMaps)
    ensures var mid := start + Used(mem, GcMaps(methods), |methods|);
            var next := mid + Used(mem, Mappings(methods), |methods|);
            && IsMapLayout(mem, Mappings(methods), mid, mappings)
            && IsMapLayout(mem, Vmaps(methods), next, vmaps)
            && end == next + Used(mem, Vmaps(methods), |methods|)
  {
    gcMaps, end := InitMaps(mem, GcMaps(methods), start);
    mappings, end := InitMaps(mem, Mappings(methods), end);
    vmaps, end := InitMaps(mem, Vmaps(methods), end);
  }

  ghost predicate IsMapLayout(mem: Memory, ids: seq<nat>, start: nat, offsets: seq<nat>) {
    |offsets| == |ids| && forall i {:trigger offsets[i]} | 0 <= i < |ids| :: offsets[i] == Offset(mem, ids, start, i)
  }

  /** `InitOatCodeDexFiles`: code offsets and method headers. */
  method InitOatCode(mem: Memory, isa: Isa, methods: seq<CompiledMethod>, ghost m: Marks, start: nat,
                     gcMaps: seq<nat>, mappings: seq<nat>, vmaps: seq<nat>)
    returns (code: seq<nat>, headers: seq<MethodHeader>, size: nat)
    requires ValidIsa(isa) && start == m.code
    requires IsMapLayout(mem, GcMaps(methods), m.gcMaps, gcMaps)
    requires IsMapLayout(mem, Mappings(methods), m.mappings, mappings)
    requires IsMapLayout(mem, Vmaps(methods), m.vmaps, vmaps)
    ensures |code| == |methods| == |headers|
    ensures forall i {:trigger code[i]} | 0 <= i < |methods| ::
              code[i] == CodeOffset(mem, isa, Visits(methods), m.code, i)
    ensures forall i {:trigger headers[i]} | 0 <= i < |methods| :: headers[i] == HeaderFor(mem, isa, methods, m, i)
    ensures size == CodeEnd(mem, isa, Visits(methods), m.code, |methods|)
  {
    code, size := InitCode(mem, isa, Visits(methods), start);
    headers := [];
    for i := 0 to |methods|
      invariant |headers| == i
      invariant forall j {:trigger headers[j]} | 0 <= j < i :: headers[j] == HeaderFor(mem, isa, methods, m, j)
    {
      headers := headers + [MakeHeader(mem, isa, methods[i], code[i], mappings[i], vmaps[i], gcMaps[i])];
    }
  }

  /** `InitOatDexFiles`, `InitDexFiles`, `InitOatClasses`. */
  method InitTables(dexFiles: seq<DexFile>, classes: seq<DexClass>, start: nat)
    returns (tables: seq<nat>, dex: seq<nat>, classOffsets: seq<nat>, end: nat, dexAlignment: nat)
    ensures IsChunkLayout(tables, TableChunks(dexFiles), start)
    ensures var dexStart := End(TableChunks(dexFiles), start, |dexFiles|);
            var classStart := End(DexChunks(dexFiles), dexStart, |dexFiles|);
            && IsChunkLayout(dex, DexChunks(dexFiles), dexStart)
            && IsChunkLayout(classOffsets, ClassChunks(classes), classStart)
            && end == End(ClassChunks(classes), classStart, |classes|)
            && classStart == dexStart + dexAlignment + TotalSize(DexChunks(dexFiles))
  {
    var padding;
    tables, end, padding := LayOut(TableChunks(dexFiles), start);
    dex, end, dexAlignment := LayOut(DexChunks(dexFiles), end);
    classOffsets, end, padding := LayOut(ClassChunks(classes), end);
  }

  /** The init pass. */
  method Init(input: Input) returns (l: Layout, ghost m: Marks)
    requires ValidInput(input)
    ensures IsMarks(input, m) && IsLayout(input, m, l)
  {
    var classes := Classes(input.dexFiles);
    var methods := Methods(classes);
    var tables, dex, classOffsets, classEnd, dexAlignment := InitTables(input.dexFiles, classes, |input.header|);
    var gcMaps, mappings, vmaps, mapEnd := InitOatMaps(input.mem, methods, classEnd);
    var exec := RoundUp(mapEnd, input.pageSize);
    var trampolines, codeStart, padding := LayOut(TrampolineChunks(input.trampolines, input.isa), exec);
    m := Marks(|input.header|, End(TableChunks(input.dexFiles), |input.header|, |input.dexFiles|), 0, classEnd, 0, 0,
               mapEnd, exec, codeStart, 0);
    m := m.(classes := End(DexChunks(input.dexFiles), m.dex, |input.dexFiles|),
            mappings := classEnd + Used(input.mem, GcMaps(methods), |methods|));
    m := m.(vmaps := m.mappings + Used(input.mem, Mappings(methods), |methods|));
    var code, headers, size := InitOatCode(input.mem, input.isa, methods, m, codeStart, gcMaps, mappings, vmaps);
    m := m.(size := size);
    l := Layout(tables, dex, classOffsets, headers, exec, trampolines, code, size, dexAlignment, exec - mapEnd);
  }

  // ----- writing records -----

  function Sum(counters: seq<nat>): nat {
    if counters == [] then 0 else Sum(counters[..|counters| - 1]) + counters[|counters| - 1]
  }

  /** The counters after one more record. */
  function Count(counters: seq<nat>, fields: seq<seq<Byte>>): (r: seq<nat>)
    requires |counters| == |fields|
    ensures |r| == |counters|
  {
    seq(|counters|, f requires 0 <= f < |counters| => counters[f] + |fields[f]|)
  }

  lemma {:induction false} CountAdds(counters: seq<nat>, fields: seq<seq<Byte>>)
    requires |counters| == |fields|
    ensures Sum(Count(counters, fields)) == Sum(counters) + |Flat(fields)|
  {
    if fields != [] {
      var n := |fields| - 1;
      CountAdds(counters[..n], fields[..n]);
      assert Count(counters, fields)[..n] == Count(counters[..n], fields[..n]);
    }
  }

  lemma {:induction false} SumZeros(k: nat)
    ensures Sum(seq(k, _ => 0)) == 0
  {
    if k > 0 {
      SumZeros(k - 1);
      assert seq(k, _ => 0)[..k - 1] == seq(k - 1, _ => 0);
    }
  }

  /** Writes the fields of a record one by one. */
  method WriteFields(out: BufferedOutputStream, fields: seq<seq<Byte>>)
    requires out.Valid()
    modifies out, out.buffer, out.sink
    ensures out.Valid()
    ensures out.contents == Overwrite(old(out.contents), old(out.pos), Flat(fields))
    ensures out.pos == old(out.pos) + |Flat(fields)|
  {
    for i := 0 to |fields|
      invariant out.Valid()
      invariant out.contents == Overwrite(old(out.contents), old(out.pos), Flat(fields[..i]))
      invariant out.pos == old(out.pos) + |Flat(fields[..i])|
    {
      FieldStep(old(out.contents), old(out.pos), fields, i);
      out.WriteFully(fields[i]);
    }
    assert fields[..|fields|] == fields;
  }

  lemma FieldStep(contents: seq<Byte>, pos: nat, fields: seq<seq<Byte>>, i: nat)
    requires i < |fields|
    ensures Overwrite(Overwrite(contents, pos, Flat(fields[..i])), pos + |Flat(fields[..i])|, fields[i]) ==
            Overwrite(contents, pos, Flat(fields[..i + 1]))
    ensures |Flat(fields[..i + 1])| == |Flat(fields[..i])| + |fields[i]|
  {
    assert fields[..i + 1][..i] == fields[..i];
    OverwriteTwice(contents, pos, Flat(fields[..i]), fields[i]);
  }

  /** The records fit their unaligned chunks; each has `k` fields. */
  ghost predicate RecordsFit(chunks: seq<Chunk>, records: seq<seq<seq<Byte>>>, k: nat) {
    && |records| == |chunks|
    && (forall i | 0 <= i < |chunks| ::
          chunks[i].align == 1 && |records[i]| == k && |Flat(records[i])| == chunks[i].size)
  }

  function FlatAll(records: seq<seq<seq<Byte>>>): (data: seq<seq<Byte>>)
    ensures |data| == |records|
  {
    seq(|records|, i requires 0 <= i < |records| => Flat(records[i]))
  }

  lemma {:induction false} UnalignedStart(chunks: seq<Chunk>, start: nat, i: nat)
    requires ValidChunks(chunks) && i < |chunks| && chunks[i].align == 1
    ensures Start(chunks, start, i) == End(chunks, start, i)
  {
  }

  /** Writes records where the position already is what the init pass promised. */
  method WriteRecords(out: BufferedOutputStream, ghost base: nat, chunks: seq<Chunk>, records: seq<seq<seq<Byte>>>,
                      k: nat, ghost start: nat)
    returns (counters: seq<nat>)
    requires ValidChunks(chunks) && RecordsFit(chunks, records, k) && out.pos == base + start
    requires out.Valid()
    modifies out, out.buffer, out.sink
    ensures out.Valid()
    ensures out.pos == base + End(chunks, start, |chunks|)
    ensures ChunksPlaced(out.contents, base, chunks, FlatAll(records), start, |chunks|)
    ensures SameOutside(old(out.contents), out.contents, base + start, out.pos)
    ensures |counters| == k && start + Sum(counters) == End(chunks, start, |chunks|)
  {
    counters := seq(k, _ => 0);
    SumZeros(k);
    ghost var data := FlatAll(records);
    assert Fits(chunks, data);
    for i := 0 to |chunks|
      invariant out.Valid()
      invariant out.pos == base + End(chunks, start, i) && base + start <= out.pos
      invariant ChunksPlaced(out.contents, base, chunks, data, start, i)
      invariant SameOutside(old(out.contents), out.contents, base + start, out.pos)
      invariant |counters| == k && start + Sum(counters) == End(chunks, start, i)
    {
      ghost var before, from := out.contents, out.pos;
      UnalignedStart(chunks, start, i);
      assert out.pos == base + Start(chunks, start, i);  // the offset check of the writer
      counters := WriteRecord(out, records[i], counters);
      ChunksStep(before, out.contents, base, chunks, data, start, i);
      SameOutsideThen(old(out.contents), before, out.contents, base + start, from, out.pos);
    }
  }

  method WriteRecord(out: BufferedOutputStream, fields: seq<seq<Byte>>, counters: seq<nat>)
    returns (counters': seq<nat>)
    requires |counters| == |fields|
    requires out.Valid()
    modifies out, out.buffer, out.sink
    ensures out.Valid()
    ensures out.pos == old(out.pos) + |Flat(fields)| && Placed(out.contents, old(out.pos), Flat(fields))
    ensures SameOutside(old(out.contents), out.contents, old(out.pos), out.pos)
    ensures |counters'| == |counters| && Sum(counters') == Sum(counters) + |Flat(fields)|
  {
    OverwritePlaces(out.contents, out.pos, Flat(fields));
    WriteFields(out, fields);
    CountAdds(counters, fields);
    counters' := Count(counters, fields);
  }

  // ----- the records of the tables -----

  lemma {:induction false} ClassesPrefix(dexFiles: seq<DexFile>, i: nat)
    requires i <= |dexFiles|
    ensures |Classes(dexFiles[..i])| <= |Classes(dexFiles)|
    ensures i < |dexFiles| ==> |Classes(dexFiles[..i + 1])| == |Classes(dexFiles[..i])| + |dexFiles[i].classes|
  {
    if i < |dexFiles| {
      assert dexFiles[..i + 1][..i] == dexFiles[..i];
      var n := |dexFiles| - 1;
      ClassesPrefix(dexFiles[..n], i);
      assert dexFiles[..n][..i] == dexFiles[..i];
    } else {
      assert dexFiles[..i] == dexFiles;
    }
  }

  lemma {:induction false} MethodsPrefix(classes: seq<DexClass>, i: nat)
    requires i <= |classes|
    ensures |Methods(classes[..i])| <= |Methods(classes)|
    ensures i < |classes| ==> |Methods(classes[..i + 1])| == |Methods(classes[..i])| + |Compiled(classes[i].methods)|
  {
    if i < |classes| {
      assert classes[..i + 1][..i] == classes[..i];
      var n := |classes| - 1;
      MethodsPrefix(classes[..n], i);
      assert classes[..n][..i] == classes[..i];
    } else {
      assert classes[..i] == classes;
    }
  }

  /** The class offsets that belong to dex file `i`. */
  function ClassOffsetsOf(dexFiles: seq<DexFile>, offsets: seq<nat>, i: nat): (r: seq<nat>)
    requires i < |dexFiles| && |offsets| == |Classes(dexFiles)|
    ensures |r| == |dexFiles[i].classes|
  {
    ClassesPrefix(dexFiles, i);
    ClassesPrefix(dexFiles, i + 1);
    offsets[|Classes(dexFiles[..i])|..|Classes(dexFiles[..i + 1])|]
  }

  /** The code offsets that belong to class `i`. */
  function CodeOffsetsOf(classes: seq<DexClass>, offsets: seq<nat>, i: nat): (r: seq<nat>)
    requires i < |classes| && |offsets| == |Methods(classes)|
    ensures |r| == |Compiled(classes[i].methods)|
  {
    MethodsPrefix(classes, i);
    MethodsPrefix(classes, i + 1);
    offsets[|Methods(classes[..i])|..|Methods(classes[..i + 1])|]
  }

  ghost function TableRecord(dexFiles: seq<DexFile>, dex: seq<nat>, classes: seq<nat>, i: nat): seq<seq<Byte>>
    requires |dex| == |dexFiles| && |classes| == |Classes(dexFiles)| && LocationsOk(dexFiles) && i < |dexFiles|
  {
    DexFileFields(dexFiles[i], dex[i], ClassOffsetsOf(dexFiles, classes, i))
  }

  ghost predicate AreTableRecords(dexFiles: seq<DexFile>, dex: seq<nat>, classes: seq<nat>, r: seq<seq<seq<Byte>>>)
    requires |dex| == |dexFiles| && |classes| == |Classes(dexFiles)| && LocationsOk(dexFiles)
  {
    |r| == |dexFiles| && forall i {:trigger r[i]} | 0 <= i < |dexFiles| :: r[i] == TableRecord(dexFiles, dex, classes, i)
  }

  /** The table of dex files, ready to be written. */
  method TableRecords(dexFiles: seq<DexFile>, dex: seq<nat>, classes: seq<nat>) returns (r: seq<seq<seq<Byte>>>)
    requires |dex| == |dexFiles| && |classes| == |Classes(dexFiles)| && LocationsOk(dexFiles)
    ensures AreTableRecords(dexFiles, dex, classes, r)
    ensures RecordsFit(TableChunks(dexFiles), r, 5)
  {
    r := [];
    for i := 0 to |dexFiles|
      invariant |r| == i
      invariant forall j {:trigger r[j]} | 0 <= j < i :: r[j] == TableRecord(dexFiles, dex, classes, j)
      invariant forall j {:trigger r[j]} | 0 <= j < i :: |r[j]| == 5 && |Flat(r[j])| == DexFileSize(dexFiles[j])
    {
      var offsets := ClassOffsetsOf(dexFiles, classes, i);
      DexFileFits(dexFiles[i], dex[i], offsets);
      r := r + [DexFileFields(dexFiles[i], dex[i], offsets)];
    }
  }

  ghost function ClassRecord(classes: seq<DexClass>, code: seq<nat>, i: nat): seq<seq<Byte>>
    requires |code| == |Methods(classes)| && i < |classes|
  {
    ClassFields(classes[i], CodeOffsetsOf(classes, code, i))
  }

  ghost predicate AreClassRecords(classes: seq<DexClass>, code: seq<nat>, r: seq<seq<seq<Byte>>>)
    requires |code| == |Methods(classes)|
  {
    |r| == |classes| && forall i {:trigger r[i]} | 0 <= i < |classes| :: r[i] == ClassRecord(classes, code, i)
  }

  ghost predicate IsClassRecord(classes: seq<DexClass>, code: seq<nat>, i: nat, record: seq<seq<Byte>>)
    requires |code| == |Methods(classes)| && i < |classes|
  {
    record == ClassRecord(classes, code, i) && |record| == 4 && |Flat(record)| == ClassSize(classes[i])
  }

  /** The classes, ready to be written. */
  method ClassRecords(classes: seq<DexClass>, code: seq<nat>) returns (r: seq<seq<seq<Byte>>>)
    requires |code| == |Methods(classes)|
    ensures AreClassRecords(classes, code, r)
    ensures RecordsFit(ClassChunks(classes), r, 4)
  {
    r := [];
    for i := 0 to |classes|
      invariant |r| == i
      invariant forall j {:trigger IsClassRecord(classes, code, j, r[j])} | 0 <= j < i ::
                  IsClassRecord(classes, code, j, r[j])
    {
      var record := ClassFields(classes[i], CodeOffsetsOf(classes, code, i));
      assert IsClassRecord(classes, code, i, record) by {
        ClassFits(classes[i], CodeOffsetsOf(classes, code, i));
      }
      r := r + [record];
    }
    assert forall j {:trigger r[j]} | 0 <= j < |classes| :: IsClassRecord(classes, code, j, r[j]);
  }

  function DexData(dexFiles: seq<DexFile>): (data: seq<seq<Byte>>)
    ensures Fits(DexChunks(dexFiles), data)
  {
    seq(|dexFiles|, i requires 0 <= i < |dexFiles| => dexFiles[i].data)
  }

  // ----- recovering the table offsets from the method headers -----

  lemma {:induction false} OffsetBelow(mem: Memory, ids: seq<nat>, start: nat, i: nat)
    requires i < |ids|
    ensures Offset(mem, ids, start, i) <= start + Used(mem, ids, |ids|)
    ensures mem(ids[i]) != [] ==> start <= Offset(mem, ids, start, i) < start + Used(mem, ids, |ids|)
  {
    PrefixMember(ids, ids[i], i);
    PlaceStable(mem, ids, ids[i], i + 1, |ids|);
    PlaceBelow(mem, ids, ids[i], |ids|);
  }

  /** A promised code offset: even start, inside the file, behind the tables. */
  lemma {:induction false} CodeOffsetBounds(mem: Memory, isa: Isa, visits: seq<Visit>, start: nat, i: nat)
    requires ValidIsa(isa) && CodeOk(mem, visits) && i < |visits| && visits[i].Quick?
    ensures var offset := CodeOffset(mem, isa, visits, start, i);
            start < offset - isa.thumb && (offset - isa.thumb) % 2 == 0 &&
            offset <= CodeEnd(mem, isa, visits, start, |visits|)
  {
    var v := visits[i];
    assert v in visits;
    SeenMember(visits, v, i);
    CodePlaceStable(mem, isa, visits, start, v, i + 1, |visits|);
    CodePlaceBelow(mem, isa, visits, start, v, |visits|);
    CodePlaceEven(mem, isa, visits, start, v, |visits|);
  }

  lemma StoredOffsetRecovered(isa: Isa, codeOffset: nat, offset: nat)
    requires isa.thumb <= 1 && isa.thumb <= codeOffset < TWO32 && (codeOffset - isa.thumb) % 2 == 0
    requires offset < codeOffset - isa.thumb
    ensures GetOffset(StoredOffset(isa, false, codeOffset, offset), codeOffset) == offset
  {
    var start: Word32 := codeOffset - isa.thumb;
    assert start % TWO32 == start && offset % TWO32 == offset && start + isa.thumb == codeOffset;
    OffsetRecovered(offset, start, isa.thumb);
  }

  /** The offset of a table is read back from the final header. */
  lemma {:induction false} TableOffsetRecovered(mem: Memory, isa: Isa, visits: seq<Visit>, codeStart: nat, i: nat,
                                                offset: nat)
    requires ValidIsa(isa) && CodeOk(mem, visits) && i < |visits|
    requires CodeEnd(mem, isa, visits, codeStart, |visits|) < TWO32 && offset <= codeStart
    ensures var code := CodeOffset(mem, isa, visits, codeStart, i);
            code < TWO32 && GetOffset(StoredOffset(isa, visits[i].Portable?, code, offset), code) == offset
  {
    CodeEndAbove(mem, isa, visits, codeStart, |visits|);
    if visits[i].Portable? {
      PortableOffsetRecovered(isa, offset);
    } else {
      CodeOffsetBounds(mem, isa, visits, codeStart, i);
      StoredOffsetRecovered(isa, CodeOffset(mem, isa, visits, codeStart, i), offset);
    }
  }

  lemma PortableOffsetRecovered(isa: Isa, offset: Word32)
    ensures GetOffset(StoredOffset(isa, true, 0, offset), 0) == offset
  {
    StoredRecovered(offset);
  }

  /** The three offsets of method `i`, read from its header, are the promised ones. */
  lemma {:induction false} HeaderRecovers(mem: Memory, isa: Isa, methods: seq<CompiledMethod>, m: Marks, i: nat)
    requires ValidIsa(isa) && CodeOk(mem, Visits(methods)) && i < |methods|
    requires CodeEnd(mem, isa, Visits(methods), m.code, |methods|) < TWO32
    requires Offset(mem, GcMaps(methods), m.gcMaps, i) <= m.code
    requires Offset(mem, Mappings(methods), m.mappings, i) <= m.code
    requires Offset(mem, Vmaps(methods), m.vmaps, i) <= m.code
    ensures var h := HeaderFor(mem, isa, methods, m, i);
            var code := CodeOffset(mem, isa, Visits(methods), m.code, i);
            && code < TWO32
            && GetOffset(h.gcMap, code) == Offset(mem, GcMaps(methods), m.gcMaps, i)
            && GetOffset(h.mapping, code) == Offset(mem, Mappings(methods), m.mappings, i)
            && GetOffset(h.vmap, code) == Offset(mem, Vmaps(methods), m.vmaps, i)
  {
    var visits := Visits(methods);
    assert visits[i].Portable? <==> methods[i].code.None?;
    TableOffsetRecovered(mem, isa, visits, m.code, i, Offset(mem, GcMaps(methods), m.gcMaps, i));
    TableOffsetRecovered(mem, isa, visits, m.code, i, Offset(mem, Mappings(methods), m.mappings, i));
    TableOffsetRecovered(mem, isa, visits, m.code, i, Offset(mem, Vmaps(methods), m.vmaps, i));
  }

  /** The tables follow each other and lie before the code; everything is within 32 bits. */
  ghost predicate MapMarks(mem: Memory, isa: Isa, methods: seq<CompiledMethod>, m: Marks)
    requires isa.align > 0
  {
    && m.mappings == m.gcMaps + Used(mem, GcMaps(methods), |methods|)
    && m.vmaps == m.mappings + Used(mem, Mappings(methods), |methods|)
    && m.maps == m.vmaps + Used(mem, Vmaps(methods), |methods|)
    && m.maps <= m.code
    && CodeEnd(mem, isa, Visits(methods), m.code, |methods|) < TWO32
  }

  /** Tables lie before the code. */
  lemma TablesBeforeCode(mem: Memory, isa: Isa, methods: seq<CompiledMethod>, m: Marks, i: nat)
    requires isa.align > 0 && MapMarks(mem, isa, methods, m) && i < |methods|
    ensures Offset(mem, GcMaps(methods), m.gcMaps, i) <= m.code
    ensures Offset(mem, Mappings(methods), m.mappings, i) <= m.code
    ensures Offset(mem, Vmaps(methods), m.vmaps, i) <= m.code
  {
    OffsetBelow(mem, GcMaps(methods), m.gcMaps, i);
    OffsetBelow(mem, Mappings(methods), m.mappings, i);
    OffsetBelow(mem, Vmaps(methods), m.vmaps, i);
  }

  /** The executable part begins at a page, and trampolines and method headers at multiples of the alignment
      of the instruction set. */
  lemma {:induction false} CodeIsAligned(input: Input, m: Marks, l: Layout)
    requires ValidInput(input) && IsMarks(input, m) && IsLayout(input, m, l)
    ensures l.exec % input.pageSize == 0
    ensures |l.trampolines| == |input.trampolines|
    ensures forall i | 0 <= i < |l.trampolines| :: l.exec <= l.trampolines[i] && l.trampolines[i] % input.isa.align == 0
    ensures var methods := Methods(Classes(input.dexFiles));
            && |l.code| == |methods|
            && forall n | 0 <= n < |methods| ::
                 if methods[n].code.None? then l.code[n] == 0
                 else && l.code[n] >= input.isa.thumb + HEADER_SIZE
                      && (l.code[n] - input.isa.thumb - HEADER_SIZE) % input.isa.align == 0
  {
    forall i | 0 <= i < |l.trampolines| ensures l.exec <= l.trampolines[i] && l.trampolines[i] % input.isa.align == 0 {
      StartWithin(TrampolineChunks(input.trampolines, input.isa), m.exec, i);
    }
    var methods := Methods(Classes(input.dexFiles));
    forall n | 0 <= n < |methods|
      ensures if methods[n].code.None? then l.code[n] == 0
              else && l.code[n] >= input.isa.thumb + HEADER_SIZE
                   && (l.code[n] - input.isa.thumb - HEADER_SIZE) % input.isa.align == 0
    {
      OffsetAligned(input.mem, input.isa, methods, m, l, n);
    }
  }

  lemma {:induction false} OffsetAligned(mem: Memory, isa: Isa, methods: seq<CompiledMethod>, m: Marks, l: Layout,
                                         n: nat)
    requires isa.align > 0 && IsCodeLayout(mem, isa, methods, m, l) && n < |methods|
    ensures if methods[n].code.None? then l.code[n] == 0
            else && l.code[n] >= isa.thumb + HEADER_SIZE
                 && (l.code[n] - isa.thumb - HEADER_SIZE) % isa.align == 0
  {
    var visits := Visits(methods);
    if methods[n].code.Some? {
      assert visits[n] in visits[..n + 1];
      HeaderAligned(mem, isa, visits, m.code, visits[n], n + 1);
    }
  }

  /** The parts of the file follow each other. */
  lemma MarksOrdered(input: Input, m: Marks)
    requires ValidInput(input) && IsMarks(input, m)
    ensures 0 < m.tables <= m.dex <= m.classes <= m.gcMaps <= m.mappings <= m.vmaps <= m.maps <= m.exec <= m.code <= m.size
  {
    var classes := Classes(input.dexFiles);
    EndGrows(TableChunks(input.dexFiles), m.tables, 0, |input.dexFiles|);
    EndGrows(DexChunks(input.dexFiles), m.dex, 0, |input.dexFiles|);
    EndGrows(ClassChunks(classes), m.classes, 0, |classes|);
    EndGrows(TrampolineChunks(input.trampolines, input.isa), m.exec, 0, |input.trampolines|);
    CodeEndAbove(input.mem, input.isa, Visits(Methods(classes)), m.code, |Methods(classes)|);
  }

  // ----- the write pass -----

  /** Every dex file table entry, dex file and class stands at its promised offset. */
  ghost predicate TablesPlaced(contents: seq<Byte>, base: nat, input: Input, m: Marks, l: Layout)
    requires ValidInput(input) && IsLayout(input, m, l)
  {
    var classes := Classes(input.dexFiles);
    && (forall i {:trigger l.tables[i]} | 0 <= i < |input.dexFiles| ::
          Placed(contents, base + l.tables[i], Flat(TableRecord(input.dexFiles, l.dex, l.classes, i))))
    && (forall i {:trigger l.dex[i]} | 0 <= i < |input.dexFiles| ::
          Placed(contents, base + l.dex[i], input.dexFiles[i].data))
    && (forall i {:trigger l.classes[i]} | 0 <= i < |classes| ::
          Placed(contents, base + l.classes[i], Flat(ClassRecord(classes, l.code, i))))
  }

  /** Every non-empty table of every method stands at its promised offset. */
  ghost predicate MapsPlaced(contents: seq<Byte>, base: nat, mem: Memory, methods: seq<CompiledMethod>, m: Marks) {
    && AllWritten(contents, base + m.gcMaps, mem, GcMaps(methods))
    && AllWritten(contents, base + m.mappings, mem, Mappings(methods))
    && AllWritten(contents, base + m.vmaps, mem, Vmaps(methods))
  }

  lemma {:induction false} WrittenStays(before: seq<Byte>, after: seq<Byte>, base: nat, mem: Memory, ids: seq<nat>,
                                        from: nat, to: nat)
    requires AllWritten(before, base, mem, ids) && SameOutside(before, after, from, to)
    requires base + Used(mem, ids, |ids|) <= from || to <= base
    ensures AllWritten(after, base, mem, ids)
  {
    var end := Used(mem, ids, |ids|);
    forall id | id in ids[..|ids|] ensures Placed(after, base + Place(mem, ids, id, |ids|), mem(id)) {
      var place := Place(mem, ids, id, |ids|);
      PlaceBelow(mem, ids, id, |ids|);
      PlacedInside(before, after, base, base + end, from, to, base + place, mem(id));
    }
  }

  /** `WriteTables`, with the bytes counted per field. */
  method WriteTables(out: BufferedOutputStream, base: nat, input: Input, ghost m: Marks, l: Layout)
    returns (tableSizes: seq<nat>, dexSize: nat, classSizes: seq<nat>)
    requires ValidInput(input) && IsMarks(input, m) && IsLayout(input, m, l)
    requires out.pos == base + m.tables
    requires out.Valid()
    modifies out, out.buffer, out.sink
    ensures out.Valid()
    ensures out.pos == base + m.gcMaps
    ensures TablesPlaced(out.contents, base, input, m, l)
    ensures SameOutside(old(out.contents), out.contents, base + m.tables, base + m.gcMaps)
    ensures |tableSizes| == 5 && |classSizes| == 4
    ensures m.tables + Sum(tableSizes) + l.dexAlignment + dexSize + Sum(classSizes) == m.gcMaps
  {
    var classes := Classes(input.dexFiles);
    var tables := TableRecords(input.dexFiles, l.dex, l.classes);
    tableSizes := WriteRecords(out, base, TableChunks(input.dexFiles), tables, 5, |input.header|);
    ghost var c1 := out.contents;
    var data := DexData(input.dexFiles);
    dexSize := WriteDexFiles(out, base, input, m, l);
    ghost var c2 := out.contents;
    var records := ClassRecords(classes, l.code);
    classSizes := WriteClasses(out, base, classes, records, m);
    MarksOrdered(input, m);
    SameOutsideThen(c1, c2, out.contents, base + m.dex, base + m.classes, base + m.gcMaps);
    SameOutsideThen(old(out.contents), c1, out.contents, base + m.tables, base + m.dex, base + m.gcMaps);
    ChunksStay(c1, out.contents, base, TableChunks(input.dexFiles), FlatAll(tables), m.tables, |tables|,
               base + m.dex, base + m.gcMaps);
    ChunksStay(c2, out.contents, base, DexChunks(input.dexFiles), data, m.dex, |data|, base + m.classes, base + m.gcMaps);
    TablesArePlaced(out.contents, base, input, m, l, tables, records);
  }

  method WriteDexFiles(out: BufferedOutputStream, base: nat, input: Input, ghost m: Marks, l: Layout)
    returns (size: nat)
    requires ValidInput(input) && IsMarks(input, m) && IsLayout(input, m, l)
    requires out.pos == base + m.dex
    requires out.Valid()
    modifies out, out.buffer, out.sink
    ensures out.Valid()
    ensures out.pos == base + m.classes
    ensures ChunksPlaced(out.contents, base, DexChunks(input.dexFiles), DexData(input.dexFiles), m.dex, |input.dexFiles|)
    ensures SameOutside(old(out.contents), out.contents, base + m.dex, base + m.classes)
    ensures size == TotalSize(DexChunks(input.dexFiles))
  {
    size := WriteChunks(out, base, DexChunks(input.dexFiles), DexData(input.dexFiles), l.dex, m.dex);
  }

  method WriteClasses(out: BufferedOutputStream, ghost base: nat, classes: seq<DexClass>,
                      records: seq<seq<seq<Byte>>>, ghost m: Marks)
    returns (sizes: seq<nat>)
    requires RecordsFit(ClassChunks(classes), records, 4) && out.pos == base + m.classes
    requires m.gcMaps == End(ClassChunks(classes), m.classes, |classes|)
    requires out.Valid()
    modifies out, out.buffer, out.sink
    ensures out.Valid()
    ensures out.pos == base + m.gcMaps
    ensures ChunksPlaced(out.contents, base, ClassChunks(classes), FlatAll(records), m.classes, |classes|)
    ensures SameOutside(old(out.contents), out.contents, base + m.classes, base + m.gcMaps)
    ensures |sizes| == 4 && m.classes + Sum(sizes) == m.gcMaps
  {
    sizes := WriteRecords(out, base, ClassChunks(classes), records, 4, m.classes);
  }

  lemma TablesArePlaced(contents: seq<Byte>, base: nat, input: Input, m: Marks, l: Layout,
                        tables: seq<seq<seq<Byte>>>, records: seq<seq<seq<Byte>>>)
    requires ValidInput(input) && IsLayout(input, m, l)
    requires AreTableRecords(input.dexFiles, l.dex, l.classes, tables)
    requires AreClassRecords(Classes(input.dexFiles), l.code, records)
    requires ChunksPlaced(contents, base, TableChunks(input.dexFiles), FlatAll(tables), m.tables, |input.dexFiles|)
    requires ChunksPlaced(contents, base, DexChunks(input.dexFiles), DexData(input.dexFiles), m.dex, |input.dexFiles|)
    requires ChunksPlaced(contents, base, ClassChunks(Classes(input.dexFiles)), FlatAll(records), m.classes,
                          |Classes(input.dexFiles)|)
    ensures TablesPlaced(contents, base, input, m, l)
  {
    var classes := Classes(input.dexFiles);
    forall i | 0 <= i < |input.dexFiles|
      ensures Placed(contents, base + l.tables[i], Flat(TableRecord(input.dexFiles, l.dex, l.classes, i)))
    {
      assert FlatAll(tables)[i] == Flat(tables[i]);
    }
    forall i | 0 <= i < |input.dexFiles| ensures Placed(contents, base + l.dex[i], input.dexFiles[i].data) {
      assert DexData(input.dexFiles)[i] == input.dexFiles[i].data;
    }
    forall i | 0 <= i < |classes| ensures Placed(contents, base + l.classes[i], Flat(ClassRecord(classes, l.code, i))) {
      assert FlatAll(records)[i] == Flat(records[i]);
    }
  }

  /** The first `n` offsets are the promised ones. */
  ghost predicate AreOffsets(mem: Memory, ids: seq<nat>, start: nat, offsets: seq<nat>, n: nat) {
    |offsets| == n <= |ids| && forall j {:trigger offsets[j]} | 0 <= j < n :: offsets[j] == Offset(mem, ids, start, j)
  }

  /** The table offsets as the write pass reads them, from headers and code offsets. */
  method ReadOffsets(mem: Memory, isa: Isa, methods: seq<CompiledMethod>, ghost m: Marks, l: Layout)
    returns (gcMaps: seq<nat>, mappings: seq<nat>, vmaps: seq<nat>)
    requires ValidIsa(isa) && CodeOk(mem, Visits(methods)) && MapMarks(mem, isa, methods, m)
    requires IsCodeLayout(mem, isa, methods, m, l)
    ensures IsMapLayout(mem, GcMaps(methods), m.gcMaps, gcMaps)
    ensures IsMapLayout(mem, Mappings(methods), m.mappings, mappings)
    ensures IsMapLayout(mem, Vmaps(methods), m.vmaps, vmaps)
  {
    gcMaps, mappings, vmaps := [], [], [];
    for i := 0 to |methods|
      invariant AreOffsets(mem, GcMaps(methods), m.gcMaps, gcMaps, i)
      invariant AreOffsets(mem, Mappings(methods), m.mappings, mappings, i)
      invariant AreOffsets(mem, Vmaps(methods), m.vmaps, vmaps, i)
    {
      var gcMap, mapping, vmap := ReadOffset(mem, isa, methods, m, l, i);
      gcMaps, mappings, vmaps := gcMaps + [gcMap], mappings + [mapping], vmaps + [vmap];
    }
  }

  method ReadOffset(mem: Memory, isa: Isa, methods: seq<CompiledMethod>, ghost m: Marks, l: Layout, i: nat)
    returns (gcMap: nat, mapping: nat, vmap: nat)
    requires ValidIsa(isa) && CodeOk(mem, Visits(methods)) && MapMarks(mem, isa, methods, m)
    requires IsCodeLayout(mem, isa, methods, m, l) && i < |methods|
    ensures gcMap == Offset(mem, GcMaps(methods), m.gcMaps, i)
    ensures mapping == Offset(mem, Mappings(methods), m.mappings, i)
    ensures vmap == Offset(mem, Vmaps(methods), m.vmaps, i)
  {
    TablesBeforeCode(mem, isa, methods, m, i);
    HeaderRecovers(mem, isa, methods, m, i);
    var header, code := l.headers[i], l.code[i];
    gcMap := GetOffset(header.gcMap, code);
    mapping := GetOffset(header.mapping, code);
    vmap := GetOffset(header.vmap, code);
  }

  /** `WriteMaps`. */
  method WriteOatMaps(out: BufferedOutputStream, ghost base: nat, mem: Memory, isa: Isa, methods: seq<CompiledMethod>,
                      ghost m: Marks, l: Layout, start: nat)
    returns (end: nat, gcMapSize: nat, mappingSize: nat, vmapSize: nat)
    requires ValidIsa(isa) && CodeOk(mem, Visits(methods)) && MapMarks(mem, isa, methods, m)
    requires IsCodeLayout(mem, isa, methods, m, l)
    requires out.pos == base + m.gcMaps && start == m.gcMaps
    requires out.Valid()
    modifies out, out.buffer, out.sink
    ensures out.Valid()
    ensures out.pos == base + m.maps && end == m.maps
    ensures MapsPlaced(out.contents, base, mem, methods, m)
    ensures SameOutside(old(out.contents), out.contents, base + m.gcMaps, base + m.maps)
    ensures m.gcMaps + gcMapSize + mappingSize + vmapSize == m.maps
  {
    var gcMaps, mappings, vmaps := ReadOffsets(mem, isa, methods, m, l);
    end, gcMapSize, mappingSize, vmapSize :=
      WriteThreeMaps(out, base, mem, GcMaps(methods), Mappings(methods), Vmaps(methods), gcMaps, mappings, vmaps, start,
                     m.mappings, m.vmaps);
  }

  /** Three passes, one for each kind of table. */
  method WriteThreeMaps(out: BufferedOutputStream, ghost base: nat, mem: Memory, a: seq<nat>, b: seq<nat>, c: seq<nat>,
                        as_: seq<nat>, bs: seq<nat>, cs: seq<nat>, start: nat, ghost p1: nat, ghost p2: nat)
    returns (end: nat, aSize: nat, bSize: nat, cSize: nat)
    requires IsMapLayout(mem, a, start, as_) && IsMapLayout(mem, b, p1, bs) && IsMapLayout(mem, c, p2, cs)
    requires p1 == start + Used(mem, a, |a|) && p2 == p1 + Used(mem, b, |b|)
    requires out.Valid() && out.pos == base + start
    modifies out, out.buffer, out.sink
    ensures out.Valid() && out.pos == base + end
    ensures end == p2 + Used(mem, c, |c|) && start + aSize + bSize + cSize == end
    ensures AllWritten(out.contents, base + start, mem, a) && AllWritten(out.contents, base + p1, mem, b)
    ensures AllWritten(out.contents, base + p2, mem, c)
    ensures SameOutside(old(out.contents), out.contents, base + start, base + end)
  {
    var afterA := WriteMaps(out, base, mem, a, as_, start);
    ghost var c1 := out.contents;
    var afterB := WriteMaps(out, base, mem, b, bs, afterA);
    ghost var c2 := out.contents;
    end := WriteMaps(out, base, mem, c, cs, afterB);
    aSize, bSize, cSize := afterA - start, afterB - afterA, end - afterB;
    ThreeWritten(old(out.contents), c1, c2, out.contents, mem, a, b, c, base + start, base + p1, base + p2, base + end);
  }

  lemma {:induction false} ThreeWritten(c0: seq<Byte>, c1: seq<Byte>, c2: seq<Byte>, c3: seq<Byte>, mem: Memory,
                                        a: seq<nat>, b: seq<nat>, c: seq<nat>, p0: nat, p1: nat, p2: nat, p3: nat)
    requires p1 == p0 + Used(mem, a, |a|) && p2 == p1 + Used(mem, b, |b|) && p3 == p2 + Used(mem, c, |c|)
    requires AllWritten(c1, p0, mem, a) && AllWritten(c2, p1, mem, b)
    requires SameOutside(c0, c1, p0, p1) && SameOutside(c1, c2, p1, p2) && SameOutside(c2, c3, p2, p3)
    ensures AllWritten(c3, p0, mem, a) && AllWritten(c3, p1, mem, b) && SameOutside(c0, c3, p0, p3)
  {
    SameOutsideThen(c1, c2, c3, p1, p2, p3);
    SameOutsideThen(c0, c1, c3, p0, p1, p3);
    WrittenStays(c1, c3, p0, mem, a, p1, p3);
    WrittenStays(c2, c3, p1, mem, b, p2, p3);
  }

  lemma MapsStay(before: seq<Byte>, after: seq<Byte>, base: nat, mem: Memory, methods: seq<CompiledMethod>,
                 m: Marks, from: nat, to: nat)
    requires m.gcMaps + Used(mem, GcMaps(methods), |GcMaps(methods)|) <= m.maps
    requires m.mappings + Used(mem, Mappings(methods), |Mappings(methods)|) <= m.maps
    requires m.vmaps + Used(mem, Vmaps(methods), |Vmaps(methods)|) <= m.maps
    requires m.gcMaps <= m.mappings <= m.vmaps
    requires MapsPlaced(before, base, mem, methods, m) && SameOutside(before, after, from, to)
    requires base + m.maps <= from || to <= base + m.gcMaps
    ensures MapsPlaced(after, base, mem, methods, m)
  {
    WrittenStays(before, after, base + m.gcMaps, mem, GcMaps(methods), from, to);
    WrittenStays(before, after, base + m.mappings, mem, Mappings(methods), from, to);
    WrittenStays(before, after, base + m.vmaps, mem, Vmaps(methods), from, to);
  }

  /** Trampolines and code stand at their promised offsets. */
  ghost predicate CodeAllPlaced(contents: seq<Byte>, base: nat, input: Input, m: Marks, l: Layout)
    requires ValidInput(input) && IsMarks(input, m) && IsLayout(input, m, l)
  {
    && ChunksPlaced(contents, base, TrampolineChunks(input.trampolines, input.isa), input.trampolines, m.exec,
                    |input.trampolines|)
    && CodeWritten(contents, base, input.mem, input.isa, Visits(Methods(Classes(input.dexFiles))), l.headers, m.code,
                   |l.headers|)
  }

  /** The trampolines of `WriteCode`, behind the gap up to the page boundary. */
  method WriteTrampolines(out: BufferedOutputStream, ghost base: nat, trampolines: seq<seq<Byte>>, isa: Isa, start: nat,
                          execAlignment: nat)
    returns (end: nat, alignment: nat, size: nat)
    requires isa.align > 0 && out.pos == base + start
    requires out.Valid()
    modifies out, out.buffer, out.sink
    ensures out.Valid()
    ensures var exec := start + execAlignment;
            && end == End(TrampolineChunks(trampolines, isa), exec, |trampolines|) && out.pos == base + end
            && ChunksPlaced(out.contents, base, TrampolineChunks(trampolines, isa), trampolines, exec, |trampolines|)
            && exec + alignment + size == end
    ensures SameOutside(old(out.contents), out.contents, old(out.pos), out.pos)
  {
    var _ := out.Seek(execAlignment, SeekCurrent);
    var exec := start + execAlignment;
    end, alignment, size := WriteAligned(out, base, TrampolineChunks(trampolines, isa), trampolines, exec);
    WiderOutside(old(out.contents), out.contents, base + exec, old(out.pos), out.pos);
  }

  lemma WiderOutside(before: seq<Byte>, after: seq<Byte>, from: nat, from': nat, to: nat)
    requires from' <= from && SameOutside(before, after, from, to)
    ensures SameOutside(before, after, from', to)
  {
  }

  /** `WriteCode` and `WriteCodeDexFiles`: skip to the page boundary, then trampolines and methods. */
  method WriteOatCode(out: BufferedOutputStream, ghost base: nat, input: Input, ghost m: Marks, l: Layout, start: nat)
    returns (trampolineAlignment: nat, trampolineSize: nat, sizes: CodeSizes)
    requires ValidInput(input) && IsMarks(input, m) && IsLayout(input, m, l)
    requires out.pos == base + m.maps && start == m.maps
    requires out.Valid()
    modifies out, out.buffer, out.sink
    ensures out.Valid()
    ensures out.pos == base + m.size
    ensures CodeAllPlaced(out.contents, base, input, m, l)
    ensures SameOutside(old(out.contents), out.contents, base + m.maps, base + m.size)
    ensures m.exec + trampolineAlignment + trampolineSize + sizes.alignment + sizes.header + sizes.code == m.size
  {
    MarksOrdered(input, m);
    var end;
    end, trampolineAlignment, trampolineSize :=
      WriteTrampolines(out, base, input.trampolines, input.isa, start, l.execAlignment);
    ghost var c1 := out.contents;
    sizes := WriteMethods(out, base, input, m, l, end);
    SameOutsideThen(old(out.contents), c1, out.contents, base + m.maps, base + m.code, base + m.size);
    ChunksStay(c1, out.contents, base, TrampolineChunks(input.trampolines, input.isa), input.trampolines, m.exec,
               |input.trampolines|, base + m.code, base + m.size);
  }

  method WriteMethods(out: BufferedOutputStream, ghost base: nat, input: Input, ghost m: Marks, l: Layout, start: nat)
    returns (sizes: CodeSizes)
    requires ValidInput(input) && IsMarks(input, m) && IsLayout(input, m, l)
    requires out.pos == base + m.code && start == m.code
    requires out.Valid()
    modifies out, out.buffer, out.sink
    ensures out.Valid()
    ensures out.pos == base + m.size
    ensures CodeWritten(out.contents, base, input.mem, input.isa, Visits(Methods(Classes(input.dexFiles))), l.headers,
                        m.code, |l.headers|)
    ensures SameOutside(old(out.contents), out.contents, base + m.code, base + m.size)
    ensures m.code + sizes.alignment + sizes.header + sizes.code == m.size
  {
    var visits := Visits(Methods(Classes(input.dexFiles)));
    var end;
    end, sizes := OatCode.WriteCode(out, base, input.mem, input.isa, visits, l.headers, l.code, start);
  }

  /** The size counters of the writer, grouped by part. */
  datatype Sizes = Sizes(header: nat, dexFileAlignment: nat, executableOffsetAlignment: nat, tables: seq<nat>,
                         dexFiles: nat, classes: seq<nat>, gcMaps: nat, mappings: nat, vmaps: nat,
                         trampolineAlignment: nat, trampolines: nat, code: CodeSizes)

  function SizeTotal(s: Sizes): nat {
    s.header + s.dexFileAlignment + s.executableOffsetAlignment + Sum(s.tables) + s.dexFiles + Sum(s.classes) +
    s.gcMaps + s.mappings + s.vmaps + s.trampolineAlignment + s.trampolines +
    s.code.alignment + s.code.header + s.code.code
  }

  /** Everything stands where the init pass promised it. */
  ghost predicate FilePlaced(contents: seq<Byte>, base: nat, input: Input, m: Marks, l: Layout)
    requires ValidInput(input) && IsMarks(input, m) && IsLayout(input, m, l)
  {
    && Placed(contents, base, input.header)
    && TablesPlaced(contents, base, input, m, l)
    && MapsPlaced(contents, base, input.mem, Methods(Classes(input.dexFiles)), m)
    && CodeAllPlaced(contents, base, input, m, l)
  }

  /** The write pass: it produces exactly the promised file of exactly the promised size. The seek of
      the last check leaves nothing pending. */
  method Write(out: BufferedOutputStream, input: Input, ghost m: Marks, l: Layout) returns (s: Sizes)
    requires ValidInput(input) && IsMarks(input, m) && IsLayout(input, m, l) && l.size < TWO32
    requires out.Valid()
    modifies out, out.buffer, out.sink
    ensures out.Valid() && out.Flushed()
    ensures out.pos == old(out.pos) + l.size
    ensures FilePlaced(out.contents, old(out.pos), input, m, l)
    ensures SameOutside(old(out.contents), out.contents, old(out.pos), old(out.pos) + l.size)
    ensures SizeTotal(s) == l.size
  {
    var base := out.Seek(0, SeekCurrent);
    s := WriteParts(out, base, input, m, l);
    var end := out.Seek(0, SeekCurrent);
    assert end == base + l.size;  // the last check of the writer
  }

  method WriteParts(out: BufferedOutputStream, base: nat, input: Input, ghost m: Marks, l: Layout) returns (s: Sizes)
    requires ValidInput(input) && IsMarks(input, m) && IsLayout(input, m, l) && l.size < TWO32
    requires out.Valid() && out.pos == base
    modifies out, out.buffer, out.sink
    ensures out.Valid() && out.pos == base + l.size
    ensures FilePlaced(out.contents, base, input, m, l)
    ensures SameOutside(old(out.contents), out.contents, base, base + l.size)
    ensures SizeTotal(s) == l.size
  {
    MarksOrdered(input, m);
    OverwritePlaces(out.contents, base, input.header);
    out.WriteFully(input.header);
    ghost var c1 := out.contents;
    var tables, dexSize, classes := WriteTables(out, base, input, m, l);
    ghost var c2 := out.contents;
    var here := out.Seek(0, SeekCurrent);
    var end, gcMaps, mappings, vmaps :=
      WriteOatMaps(out, base, input.mem, input.isa, Methods(Classes(input.dexFiles)), m, l, here - base);
    ghost var c3 := out.contents;
    var trampolineAlignment, trampolines, code := WriteOatCode(out, base, input, m, l, end);
    s := Sizes(|input.header|, l.dexAlignment, l.execAlignment, tables, dexSize, classes, gcMaps, mappings, vmaps,
               trampolineAlignment, trampolines, code);
    FileIsPlaced(old(out.contents), c1, c2, c3, out.contents, base, input, m, l);
  }

  /** Later parts do not disturb earlier ones. */
  lemma FileIsPlaced(c0: seq<Byte>, c1: seq<Byte>, c2: seq<Byte>, c3: seq<Byte>, c4: seq<Byte>, base: nat,
                     input: Input, m: Marks, l: Layout)
    requires ValidInput(input) && IsMarks(input, m) && IsLayout(input, m, l) && m.size < TWO32
    requires SameOutside(c0, c1, base, base + m.tables) && Placed(c1, base, input.header)
    requires SameOutside(c1, c2, base + m.tables, base + m.gcMaps) && TablesPlaced(c2, base, input, m, l)
    requires SameOutside(c2, c3, base + m.gcMaps, base + m.maps)
    requires MapsPlaced(c3, base, input.mem, Methods(Classes(input.dexFiles)), m)
    requires SameOutside(c3, c4, base + m.maps, base + m.size) && CodeAllPlaced(c4, base, input, m, l)
    ensures FilePlaced(c4, base, input, m, l)
    ensures SameOutside(c0, c4, base, base + m.size)
  {
    MarksOrdered(input, m);
    SameOutsideChain(c0, c1, c2, c3, c4, base, base + m.tables, base + m.gcMaps, base + m.maps, base + m.size);
    PlacedStays(c1, c4, base + m.tables, base + m.size, base, input.header);
    TablesStay(c2, c4, base, input, m, l, base + m.gcMaps, base + m.size);
    MapsStay(c3, c4, base, input.mem, Methods(Classes(input.dexFiles)), m, base + m.maps, base + m.size);
  }

  lemma SameOutsideChain(c0: seq<Byte>, c1: seq<Byte>, c2: seq<Byte>, c3: seq<Byte>, c4: seq<Byte>,
                         p0: nat, p1: nat, p2: nat, p3: nat, p4: nat)
    requires p0 <= p1 <= p2 <= p3 <= p4
    requires SameOutside(c0, c1, p0, p1) && SameOutside(c1, c2, p1, p2)
    requires SameOutside(c2, c3, p2, p3) && SameOutside(c3, c4, p3, p4)
    ensures SameOutside(c2, c4, p2, p4) && SameOutside(c1, c4, p1, p4) && SameOutside(c0, c4, p0, p4)
  {
    SameOutsideThen(c2, c3, c4, p2, p3, p4);
    SameOutsideThen(c1, c2, c4, p1, p2, p4);
    SameOutsideThen(c0, c1, c4, p0, p1, p4);
  }

  lemma TablesStay(before: seq<Byte>, after: seq<Byte>, base: nat, input: Input, m: Marks, l: Layout, from: nat,
                   to: nat)
    requires ValidInput(input) && IsMarks(input, m) && IsLayout(input, m, l)
    requires TablesPlaced(before, base, input, m, l)
    requires SameOutside(before, after, from, to) && (base + m.gcMaps <= from || to <= base + m.tables)
    ensures TablesPlaced(after, base, input, m, l)
  {
    MarksOrdered(input, m);
    forall i | 0 <= i < |input.dexFiles|
      ensures Placed(after, base + l.tables[i], Flat(TableRecord(input.dexFiles, l.dex, l.classes, i)))
    {
      TableEntryStays(before, after, base, input.dexFiles, m, l, i, from, to);
    }
    DexFilesStay(before, after, base, input.dexFiles, m, l, from, to);
    ClassesStay(before, after, base, Classes(input.dexFiles), m, l, from, to);
  }

  lemma {:induction false} TableEntryStays(before: seq<Byte>, after: seq<Byte>, base: nat, dexFiles: seq<DexFile>,
                                           m: Marks, l: Layout, i: nat, from: nat, to: nat)
    requires i < |dexFiles| && LocationsOk(dexFiles)
    requires |l.dex| == |dexFiles| && |l.classes| == |Classes(dexFiles)|
    requires IsChunkLayout(l.tables, TableChunks(dexFiles), m.tables)
    requires End(TableChunks(dexFiles), m.tables, |dexFiles|) <= m.gcMaps
    requires Placed(before, base + l.tables[i], Flat(TableRecord(dexFiles, l.dex, l.classes, i)))
    requires SameOutside(before, after, from, to) && (base + m.gcMaps <= from || to <= base + m.tables)
    ensures Placed(after, base + l.tables[i], Flat(TableRecord(dexFiles, l.dex, l.classes, i)))
  {
    DexFileFits(dexFiles[i], l.dex[i], ClassOffsetsOf(dexFiles, l.classes, i));
    ChunkStays(before, after, base, TableChunks(dexFiles), m.tables, i, l.tables[i],
               Flat(TableRecord(dexFiles, l.dex, l.classes, i)), from, to);
  }

  lemma {:induction false} DexFilesStay(before: seq<Byte>, after: seq<Byte>, base: nat, dexFiles: seq<DexFile>,
                                        m: Marks, l: Layout, from: nat, to: nat)
    requires IsChunkLayout(l.dex, DexChunks(dexFiles), m.dex)
    requires End(DexChunks(dexFiles), m.dex, |dexFiles|) <= m.gcMaps
    requires forall i {:trigger l.dex[i]} | 0 <= i < |dexFiles| :: Placed(before, base + l.dex[i], dexFiles[i].data)
    requires SameOutside(before, after, from, to) && (base + m.gcMaps <= from || to <= base + m.dex)
    ensures forall i {:trigger l.dex[i]} | 0 <= i < |dexFiles| :: Placed(after, base + l.dex[i], dexFiles[i].data)
  {
    forall i | 0 <= i < |dexFiles| ensures Placed(after, base + l.dex[i], dexFiles[i].data) {
      ChunkStays(before, after, base, DexChunks(dexFiles), m.dex, i, l.dex[i], dexFiles[i].data, from, to);
    }
  }

  lemma {:induction false} ClassStays(before: seq<Byte>, after: seq<Byte>, base: nat, classes: seq<DexClass>,
                                      m: Marks, l: Layout, i: nat, from: nat, to: nat)
    requires |l.code| == |Methods(classes)| && IsChunkLayout(l.classes, ClassChunks(classes), m.classes)
    requires End(ClassChunks(classes), m.classes, |classes|) <= m.gcMaps && i < |classes|
    requires Placed(before, base + l.classes[i], Flat(ClassRecord(classes, l.code, i)))
    requires SameOutside(before, after, from, to) && (base + m.gcMaps <= from || to <= base + m.classes)
    ensures Placed(after, base + l.classes[i], Flat(ClassRecord(classes, l.code, i)))
  {
    ClassFits(classes[i], CodeOffsetsOf(classes, l.code, i));
    ChunkStays(before, after, base, ClassChunks(classes), m.classes, i, l.classes[i],
               Flat(ClassRecord(classes, l.code, i)), from, to);
  }

  lemma {:induction false} ClassesStay(before: seq<Byte>, after: seq<Byte>, base: nat, classes: seq<DexClass>,
                                       m: Marks, l: Layout, from: nat, to: nat)
    requires |l.code| == |Methods(classes)| && IsChunkLayout(l.classes, ClassChunks(classes), m.classes)
    requires End(ClassChunks(classes), m.classes, |classes|) <= m.gcMaps
    requires forall i {:trigger l.classes[i]} | 0 <= i < |classes| ::
               Placed(before, base + l.classes[i], Flat(ClassRecord(classes, l.code, i)))
    requires SameOutside(before, after, from, to) && (base + m.gcMaps <= from || to <= base + m.classes)
    ensures forall i {:trigger l.classes[i]} | 0 <= i < |classes| ::
              Placed(after, base + l.classes[i], Flat(ClassRecord(classes, l.code, i)))
  {
    forall i | 0 <= i < |classes| ensures Placed(after, base + l.classes[i], Flat(ClassRecord(classes, l.code, i))) {
      ClassStays(before, after, base, classes, m, l, i, from, to);
    }
  }

  lemma {:induction false} ChunkStays(before: seq<Byte>, after: seq<Byte>, base: nat, chunks: seq<Chunk>, start: nat,
                                      i: nat, offset: nat, data: seq<Byte>, from: nat, to: nat)
    requires ValidChunks(chunks) && i < |chunks| && offset == Start(chunks, start, i) && |data| == chunks[i].size
    requires base + End(chunks, start, |chunks|) <= from || to <= base + start
    requires Placed(before, base + offset, data) && SameOutside(before, after, from, to)
    ensures Placed(after, base + offset, data)
  {
    StartWithin(chunks, start, i);
    PlacedInside(before, after, base + start, base + End(chunks, start, |chunks|), from, to, base + offset, data);
  }

  lemma {:induction false} CodeStays(before: seq<Byte>, after: seq<Byte>, base: nat, mem: Memory, isa: Isa,
                                     visits: seq<Visit>, headers: seq<MethodHeader>, start: nat, from: nat, to: nat)
    requires ValidIsa(isa) && |headers| == |visits| && SameOutside(before, after, from, to)
    requires CodeWritten(before, base, mem, isa, visits, headers, start, |visits|)
    requires base + CodeEnd(mem, isa, visits, start, |visits|) <= from || to <= base + start
    ensures CodeWritten(after, base, mem, isa, visits, headers, start, |visits|)
  {
    forall v | v in visits[..|visits|] && v.Quick?
      ensures CodePlaced(after, base, mem, isa, visits, headers, start, v, |visits|)
    {
      assert CodePlaced(before, base, mem, isa, visits, headers, start, v, |visits|);
      VisitStays(before, after, base, mem, isa, visits, headers, start, v, from, to);
    }
  }

  lemma {:induction false} VisitStays(before: seq<Byte>, after: seq<Byte>, base: nat, mem: Memory, isa: Isa,
                                      visits: seq<Visit>, headers: seq<MethodHeader>, start: nat, v: Visit, from: nat,
                                      to: nat)
    requires ValidIsa(isa) && |headers| == |visits| && SameOutside(before, after, from, to)
    requires v in visits[..|visits|] && v.Quick?
    requires CodePlaced(before, base, mem, isa, visits, headers, start, v, |visits|)
    requires base + CodeEnd(mem, isa, visits, start, |visits|) <= from || to <= base + start
    ensures CodePlaced(after, base, mem, isa, visits, headers, start, v, |visits|)
  {
    CodePlaceBelow(mem, isa, visits, start, v, |visits|);
    var place := CodePlace(mem, isa, visits, start, v, |visits|);
    var end := CodeEnd(mem, isa, visits, start, |visits|);
    PlacedInside(before, after, base + start, base + end, from, to, base + place - HEADER_SIZE,
                 HeaderBytes(FirstHeader(visits, headers, v, |visits|)));
    PlacedInside(before, after, base + start, base + end, from, to, base + place, mem(v.key.code));
  }

  /** Whatever is written beside the oat file leaves it as it is. */
  lemma FileStays(before: seq<Byte>, after: seq<Byte>, base: nat, input: Input, m: Marks, l: Layout, from: nat, to: nat)
    requires ValidInput(input) && IsMarks(input, m) && IsLayout(input, m, l) && FilePlaced(before, base, input, m, l)
    requires SameOutside(before, after, from, to) && (base + m.size <= from || to <= base)
    ensures FilePlaced(after, base, input, m, l)
  {
    MarksOrdered(input, m);
    PlacedStays(before, after, from, to, base, input.header);
    TablesStay(before, after, base, input, m, l, from, to);
    MapsStay(before, after, base, input.mem, Methods(Classes(input.dexFiles)), m, from, to);
    ChunksStay(before, after, base, TrampolineChunks(input.trampolines, input.isa), input.trampolines, m.exec,
               |input.trampolines|, from, to);
    CodeStays(before, after, base, input.mem, input.isa, Visits(Methods(Classes(input.dexFiles))), l.headers, m.code,
              from, to);
  }

  /** The part before the code fills whole pages. */
  lemma ExecOnPage(input: Input, m: Marks)
    requires ValidInput(input) && IsMarks(input, m)
    ensures m.exec % input.pageSize == 0
  {
    assert m.exec == RoundUp(m.maps, input.pageSize);
  }

  // ----- what a reader of the file finds -----

  /** Methods that agree in the four addresses share code offset and table offsets; they also share
      the whole header if and only if their frames agree, which the comparator does not look at. */
  lemma SharedCode(mem: Memory, isa: Isa, methods: seq<CompiledMethod>, m: Marks, i: nat, j: nat)
    requires isa.align > 0 && i <= j < |methods|
    requires VisitOf(methods[i]).Quick? && VisitOf(methods[i]) == VisitOf(methods[j])
    ensures CodeOffset(mem, isa, Visits(methods), m.code, i) == CodeOffset(mem, isa, Visits(methods), m.code, j)
    ensures Offset(mem, GcMaps(methods), m.gcMaps, i) == Offset(mem, GcMaps(methods), m.gcMaps, j)
    ensures Offset(mem, Mappings(methods), m.mappings, i) == Offset(mem, Mappings(methods), m.mappings, j)
    ensures Offset(mem, Vmaps(methods), m.vmaps, i) == Offset(mem, Vmaps(methods), m.vmaps, j)
    ensures HeaderFor(mem, isa, methods, m, i) == HeaderFor(mem, isa, methods, m, j)
       <==> methods[i].frame == methods[j].frame
  {
    var visits := Visits(methods);
    SeenMember(visits, visits[i], i);
    CodePlaceStable(mem, isa, visits, m.code, visits[i], i + 1, j + 1);
    SameTableSameOffset(mem, GcMaps(methods), m.gcMaps, i, j);
    SameTableSameOffset(mem, Mappings(methods), m.mappings, i, j);
    SameTableSameOffset(mem, Vmaps(methods), m.vmaps, i, j);
  }

  /** The header in front of a method's code is that of the first method sharing the code. */
  lemma {:induction false} FirstHeaderOf(visits: seq<Visit>, headers: seq<MethodHeader>, v: Visit, i: nat)
    returns (f: nat)
    requires i <= |visits| && |headers| == |visits| && v in visits[..i]
    ensures f < i && visits[f] == v && FreshCode(visits, f) && FirstHeader(visits, headers, v, i) == headers[f]
  {
    SeenMember(visits, v, i - 1);
    if v in visits[..i - 1] {
      f := FirstHeaderOf(visits, headers, v, i - 1);
    } else {
      f := i - 1;
    }
  }

  /** At `offset` stands `code`, and in front of it `header`. */
  ghost predicate FoundAt(contents: seq<Byte>, base: nat, offset: nat, thumb: nat, header: MethodHeader,
                          code: seq<Byte>) {
    && offset >= thumb + HEADER_SIZE
    && Placed(contents, base + offset - thumb, code)
    && Placed(contents, base + offset - thumb - HEADER_SIZE, HeaderBytes(header))
  }

  /** Header and code as they lie around a code offset; the header is that of the first visit. */
  lemma CodeReadable(contents: seq<Byte>, base: nat, mem: Memory, isa: Isa, visits: seq<Visit>,
                     headers: seq<MethodHeader>, start: nat, i: nat) returns (f: nat)
    requires ValidIsa(isa) && |headers| == |visits| && i < |visits| && visits[i].Quick?
    requires CodeWritten(contents, base, mem, isa, visits, headers, start, |visits|)
    ensures f < |visits| && visits[f] == visits[i] && FreshCode(visits, f)
    ensures FoundAt(contents, base, CodeOffset(mem, isa, visits, start, i), isa.thumb, headers[f],
                    mem(visits[i].key.code))
  {
    var v := visits[i];
    CodeOffsetIsPlace(mem, isa, visits, start, i);
    assert CodePlaced(contents, base, mem, isa, visits, headers, start, v, |visits|);
    f := FirstHeaderOf(visits, headers, v, |visits|);
  }

  lemma {:induction false} CodeOffsetIsPlace(mem: Memory, isa: Isa, visits: seq<Visit>, start: nat, i: nat)
    requires ValidIsa(isa) && i < |visits| && visits[i].Quick?
    ensures visits[i] in visits[..|visits|]
    ensures var place := CodePlace(mem, isa, visits, start, visits[i], |visits|);
            place >= HEADER_SIZE && CodeOffset(mem, isa, visits, start, i) == place + isa.thumb
  {
    var v := visits[i];
    SeenMember(visits, v, i);
    CodePlaceStable(mem, isa, visits, start, v, i + 1, |visits|);
    CodePlaceBelow(mem, isa, visits, start, v, |visits|);
  }

  lemma FirstIsNotLater(visits: seq<Visit>, f: nat, i: nat)
    requires f < |visits| && i < |visits| && FreshCode(visits, f) && visits[f] == visits[i]
    ensures f <= i
  {
  }

  /** From its code offset, a method finds its code, and in front of it the header of the first method
      that shares the code, which leads to the method's three tables, see `HeaderReaches`. That header
      is the method's own header if and only if the two frames agree. */
  lemma MethodReadable(contents: seq<Byte>, base: nat, mem: Memory, isa: Isa, methods: seq<CompiledMethod>, m: Marks,
                       l: Layout, i: nat) returns (f: nat)
    requires ValidIsa(isa) && IsCodeLayout(mem, isa, methods, m, l)
    requires CodeWritten(contents, base, mem, isa, Visits(methods), l.headers, m.code, |methods|)
    requires i < |methods| && methods[i].code.Some?
    ensures f <= i && VisitOf(methods[f]) == VisitOf(methods[i]) && FreshCode(Visits(methods), f)
    ensures FoundAt(contents, base, l.code[i], isa.thumb, l.headers[f], mem(methods[i].code.value))
    ensures l.headers[f] == l.headers[i] <==> methods[f].frame == methods[i].frame
  {
    var visits := Visits(methods);
    f := CodeReadable(contents, base, mem, isa, visits, l.headers, m.code, i);
    FirstIsNotLater(visits, f, i);
    FrameDecides(mem, isa, methods, m, l, f, i);
  }

  lemma FrameDecides(mem: Memory, isa: Isa, methods: seq<CompiledMethod>, m: Marks, l: Layout, f: nat, i: nat)
    requires isa.align > 0 && IsCodeLayout(mem, isa, methods, m, l) && f <= i < |methods|
    requires VisitOf(methods[i]).Quick? && VisitOf(methods[f]) == VisitOf(methods[i])
    ensures l.headers[f] == l.headers[i] <==> methods[f].frame == methods[i].frame
  {
    SharedCode(mem, isa, methods, m, f, i);
  }

  /** Two methods with the same code and tables, and frames of different sizes. */
  function TwoFrames(): seq<CompiledMethod> {
    [CompiledMethod(Some(1), 2, 3, 4, Frame(16, 0, 0)), CompiledMethod(Some(1), 2, 3, 4, Frame(32, 0, 0))]
  }

  /** Whatever is written for them: in front of its code the second method finds the frame of the first. */
  lemma ForeignFrame(contents: seq<Byte>, base: nat, mem: Memory, isa: Isa, m: Marks, l: Layout)
    requires ValidIsa(isa) && IsCodeLayout(mem, isa, TwoFrames(), m, l)
    requires CodeWritten(contents, base, mem, isa, Visits(TwoFrames()), l.headers, m.code, 2)
    ensures FoundAt(contents, base, l.code[1], isa.thumb, l.headers[0], mem(1))
    ensures l.headers[0].frame == Frame(16, 0, 0) && l.headers[0] != l.headers[1]
  {
    var methods := TwoFrames();
    var visits := Visits(methods);
    assert visits[0] == visits[1] && visits[1] in visits[..1];
    var f := MethodReadable(contents, base, mem, isa, methods, m, l, 1);
    assert l.headers[0] == HeaderFor(mem, isa, methods, m, 0);
  }

  /** The header of a method that shares the code of method `i` leads to the tables of method `i`. */
  lemma HeaderReaches(contents: seq<Byte>, base: nat, mem: Memory, isa: Isa, methods: seq<CompiledMethod>, m: Marks,
                      f: nat, i: nat)
    requires ValidIsa(isa) && CodeOk(mem, Visits(methods)) && MapMarks(mem, isa, methods, m)
    requires MapsPlaced(contents, base, mem, methods, m) && f < |methods| && i < |methods|
    requires VisitOf(methods[f]).Quick? && VisitOf(methods[f]) == VisitOf(methods[i])
    ensures var h := HeaderFor(mem, isa, methods, m, f);
            var code := CodeOffset(mem, isa, Visits(methods), m.code, i);
            && code < TWO32
            && LeadsTo(contents, base, mem, GetOffset(h.gcMap, code), methods[i].gcMap)
            && LeadsTo(contents, base, mem, GetOffset(h.mapping, code), methods[i].mapping)
            && LeadsTo(contents, base, mem, GetOffset(h.vmap, code), methods[i].vmap)
  {
    SharedTables(mem, isa, methods, m, f, i);
    HeaderLeads(contents, base, mem, isa, methods, m, f);
  }

  /** The table `id`, unless empty, stands at `offset`. */
  ghost predicate LeadsTo(contents: seq<Byte>, base: nat, mem: Memory, offset: nat, id: nat) {
    mem(id) != [] ==> Placed(contents, base + offset, mem(id))
  }

  lemma SharedTables(mem: Memory, isa: Isa, methods: seq<CompiledMethod>, m: Marks, f: nat, i: nat)
    requires isa.align > 0 && f < |methods| && i < |methods|
    requires VisitOf(methods[f]).Quick? && VisitOf(methods[f]) == VisitOf(methods[i])
    ensures CodeOffset(mem, isa, Visits(methods), m.code, f) == CodeOffset(mem, isa, Visits(methods), m.code, i)
    ensures methods[f].gcMap == methods[i].gcMap && methods[f].mapping == methods[i].mapping
    ensures methods[f].vmap == methods[i].vmap
  {
    if f <= i {
      SharedCode(mem, isa, methods, m, f, i);
    } else {
      SharedCode(mem, isa, methods, m, i, f);
    }
  }

  lemma HeaderLeads(contents: seq<Byte>, base: nat, mem: Memory, isa: Isa, methods: seq<CompiledMethod>, m: Marks,
                    f: nat)
    requires ValidIsa(isa) && CodeOk(mem, Visits(methods)) && MapMarks(mem, isa, methods, m) && f < |methods|
    requires MapsPlaced(contents, base, mem, methods, m)
    ensures var h := HeaderFor(mem, isa, methods, m, f);
            var code := CodeOffset(mem, isa, Visits(methods), m.code, f);
            && code < TWO32
            && LeadsTo(contents, base, mem, GetOffset(h.gcMap, code), methods[f].gcMap)
            && LeadsTo(contents, base, mem, GetOffset(h.mapping, code), methods[f].mapping)
            && LeadsTo(contents, base, mem, GetOffset(h.vmap, code), methods[f].vmap)
  {
    TablesBeforeCode(mem, isa, methods, m, f);
    HeaderRecovers(mem, isa, methods, m, f);
    WrittenAtOffset(contents, base, mem, GcMaps(methods), m.gcMaps, f);
    WrittenAtOffset(contents, base, mem, Mappings(methods), m.mappings, f);
    WrittenAtOffset(contents, base, mem, Vmaps(methods), m.vmaps, f);
  }
}
