/**
 Reading the written oat file: from the class record of a method to its code, from there to the method
 header, and from the header to the tables of the method. Only bytes of the file are read.
 */
module OatReader {
  import opened Bytes
  import opened Streams
  import opened Chunks
  import opened ElfFormat
  import opened ElfLayout
  import opened OatMaps
  import opened OatCode
  import opened OatWriter

  // ----- the method header -----

  /** The header in front of the code at `code`. */
  function HeaderAt(contents: seq<Byte>, code: nat): MethodHeader
    requires code >= HEADER_SIZE
  {
    var at := code - HEADER_SIZE;
    MethodHeader(WordAt(contents, at), WordAt(contents, at + 4), WordAt(contents, at + 8),
                 Frame(WordAt(contents, at + 12), WordAt(contents, at + 16), WordAt(contents, at + 20)),
                 WordAt(contents, at + 24))
  }

  lemma PartPlaced(contents: seq<Byte>, at: nat, bytes: seq<Byte>, from: nat, part: seq<Byte>)
    requires Placed(contents, at, bytes) && from + |part| <= |bytes| && bytes[from..from + |part|] == part
    ensures Placed(contents, at + from, part)
  {
    forall k: nat | k < |part| ensures At(contents, at + from + k) == part[k] {
      assert At(contents, at + (from + k)) == bytes[from + k];
    }
  }

  lemma WordInside(contents: seq<Byte>, at: nat, bytes: seq<Byte>, from: nat, w: Word32)
    requires Placed(contents, at, bytes) && from + 4 <= |bytes| && bytes[from..from + 4] == WordBytes(w)
    ensures WordAt(contents, at + from) == w
  {
    PartPlaced(contents, at, bytes, from, WordBytes(w));
    WordPlaced(contents, at + from, w);
  }

  /** A header that was written is read back. */
  lemma HeaderReadsBack(contents: seq<Byte>, code: nat, h: MethodHeader)
    requires code >= HEADER_SIZE && Placed(contents, code - HEADER_SIZE, HeaderBytes(h))
    ensures HeaderAt(contents, code) == h
  {
    var at, bytes := code - HEADER_SIZE, HeaderBytes(h);
    assert WordAt(contents, at) == h.mapping by {
      WordInside(contents, at, bytes, 0, h.mapping);
    }
    assert WordAt(contents, at + 4) == h.vmap by {
      WordInside(contents, at, bytes, 4, h.vmap);
    }
    assert WordAt(contents, at + 8) == h.gcMap by {
      WordInside(contents, at, bytes, 8, h.gcMap);
    }
    assert WordAt(contents, at + 12) == h.frame.size by {
      WordInside(contents, at, bytes, 12, h.frame.size);
    }
    assert WordAt(contents, at + 16) == h.frame.coreSpills by {
      WordInside(contents, at, bytes, 16, h.frame.coreSpills);
    }
    assert WordAt(contents, at + 20) == h.frame.fpSpills by {
      WordInside(contents, at, bytes, 20, h.frame.fpSpills);
    }
    assert WordAt(contents, at + 24) == h.codeSize by {
      WordInside(contents, at, bytes, 24, h.codeSize);
    }
  }

  // ----- the class record -----

  /** `x` shifted right by `r` bits. */
  function Shifted(x: nat, r: nat): nat {
    if r == 0 then x else Shifted(x / 2, r - 1)
  }

  /** The bit for method `j` in a bitmap of little-endian words. */
  predicate BitAt(contents: seq<Byte>, at: nat, j: nat) {
    Shifted(At(contents, at + j / 8), j % 8) % 2 == 1
  }

  lemma {:induction false} FlatFour(f: seq<seq<Byte>>)
    requires |f| == 4
    ensures Flat(f) == f[0] + f[1] + f[2] + f[3]
  {
    var f3, f2, f1 := f[..3], f[..2], f[..1];
    assert f3[..2] == f2 && f2[..1] == f1 && f1[..0] == [];
    assert Flat(f1) == f[0];
    assert Flat(f2) == f[0] + f[1];
    assert Flat(f3) == f[0] + f[1] + f[2];
  }

  lemma HalfInside(contents: seq<Byte>, at: nat, bytes: seq<Byte>, from: nat, h: nat)
    requires Placed(contents, at, bytes) && from + 2 <= |bytes| && bytes[from..from + 2] == HalfBytes(h) && h < 0x1_0000
    ensures HalfAt(contents, at + from) == h
  {
    assert At(contents, at + from) == bytes[from] == HalfBytes(h)[0];
    assert At(contents, at + (from + 1)) == bytes[from + 1] == HalfBytes(h)[1];
  }

  lemma TypeReads(contents: seq<Byte>, at: nat, c: DexClass, offsets: seq<nat>)
    requires Placed(contents, at, Flat(ClassFields(c, offsets)))
    ensures HalfAt(contents, at + 2) == ClassType(c)
  {
    var f := ClassFields(c, offsets);
    FlatFour(f);
    assert Flat(f)[2..4] == f[1];
    HalfInside(contents, at, Flat(f), 2, ClassType(c));
  }

  lemma StatusReads(contents: seq<Byte>, at: nat, c: DexClass, offsets: seq<nat>)
    requires Placed(contents, at, Flat(ClassFields(c, offsets)))
    ensures HalfAt(contents, at) == c.status
  {
    var f := ClassFields(c, offsets);
    FlatFour(f);
    assert Flat(f)[0..2] == f[0];
    HalfInside(contents, at, Flat(f), 0, c.status);
  }

  lemma ThirdPart(a: seq<Byte>, b: seq<Byte>, size: seq<Byte>, bitmap: seq<Byte>, d: seq<Byte>)
    requires |a| == 2 && |b| == 2 && |size| == 4
    ensures (a + b + (size + bitmap) + d)[4..8] == size
    ensures (a + b + (size + bitmap) + d)[8..8 + |bitmap|] == bitmap
  {
  }

  lemma BitmapField(c: DexClass, offsets: seq<nat>)
    requires ClassType(c) == 1 && |BitmapBytes(c.methods)| < TWO32
    ensures var f := ClassFields(c, offsets);
            && |f[0]| == 2 && |f[1]| == 2
            && f[2] == WordBytes(|BitmapBytes(c.methods)|) + BitmapBytes(c.methods)
  {
    assert |BitmapBytes(c.methods)| % TWO32 == |BitmapBytes(c.methods)| by {
      WordIsItself(|BitmapBytes(c.methods)|);
    }
  }

  lemma BitmapReads(contents: seq<Byte>, at: nat, c: DexClass, offsets: seq<nat>)
    requires Placed(contents, at, Flat(ClassFields(c, offsets))) && ClassType(c) == 1 && |BitmapBytes(c.methods)| < TWO32
    ensures WordAt(contents, at + 4) == |BitmapBytes(c.methods)|
    ensures Placed(contents, at + 8, BitmapBytes(c.methods))
  {
    BitmapField(c, offsets);
    RecordReads(contents, at, ClassFields(c, offsets), BitmapBytes(c.methods));
  }

  lemma {:induction false} RecordReads(contents: seq<Byte>, at: nat, f: seq<seq<Byte>>, bitmap: seq<Byte>)
    requires |f| == 4 && |f[0]| == 2 && |f[1]| == 2 && |bitmap| < TWO32 && f[2] == WordBytes(|bitmap|) + bitmap
    requires Placed(contents, at, Flat(f))
    ensures WordAt(contents, at + 4) == |bitmap| && Placed(contents, at + 8, bitmap)
  {
    FlatFour(f);
    BitmapInside(contents, at, Flat(f), f[0], f[1], bitmap, f[3]);
  }

  lemma BitmapInside(contents: seq<Byte>, at: nat, bytes: seq<Byte>, a: seq<Byte>, b: seq<Byte>, bitmap: seq<Byte>,
                     d: seq<Byte>)
    requires |a| == 2 && |b| == 2 && |bitmap| < TWO32 && bytes == a + b + (WordBytes(|bitmap|) + bitmap) + d
    requires Placed(contents, at, bytes)
    ensures WordAt(contents, at + 4) == |bitmap| && Placed(contents, at + 8, bitmap)
  {
    ThirdPart(a, b, WordBytes(|bitmap|), bitmap, d);
    WordInside(contents, at, bytes, 4, |bitmap|);
    PartPlaced(contents, at, bytes, 8, bitmap);
  }

  function ByteOf(v: seq<nat>): nat {
    if v == [] then 0 else v[0] + 2 * ByteOf(v[1..])
  }

  lemma {:induction false} BitOfByte(v: seq<nat>, r: nat)
    requires r < |v| && forall i | 0 <= i < |v| :: v[i] <= 1
    ensures Shifted(ByteOf(v), r) % 2 == v[r]
  {
    if r > 0 {
      BitOfByte(v[1..], r - 1);
    }
  }

  lemma {:induction false} EightBits(v: seq<nat>)
    requires |v| == 8
    ensures ByteOf(v)
         == v[0] + 2 * v[1] + 4 * v[2] + 8 * v[3] + 16 * v[4] + 32 * v[5] + 64 * v[6] + 128 * v[7]
  {
    assert v[1..][1..] == v[2..] && v[2..][1..] == v[3..] && v[3..][1..] == v[4..] && v[4..][1..] == v[5..];
    assert v[5..][1..] == v[6..] && v[6..][1..] == v[7..] && v[7..][1..] == [];
    assert ByteOf(v[7..]) == v[7];
    assert ByteOf(v[6..]) == v[6] + 2 * v[7];
    assert ByteOf(v[5..]) == v[5] + 2 * v[6] + 4 * v[7];
    assert ByteOf(v[4..]) == v[4] + 2 * v[5] + 4 * v[6] + 8 * v[7];
    assert ByteOf(v[3..]) == v[3] + 2 * v[4] + 4 * v[5] + 8 * v[6] + 16 * v[7];
    assert ByteOf(v[2..]) == v[2] + 2 * v[3] + 4 * v[4] + 8 * v[5] + 16 * v[6] + 32 * v[7];
  }

  lemma BitScales(methods: seq<Option<CompiledMethod>>, i: nat, bit: nat)
    ensures BitOf(methods, i, bit) == bit * BitOf(methods, i, 1)
  {
  }

  lemma {:induction false} ByteIs(methods: seq<Option<CompiledMethod>>, k: nat, v: seq<nat>)
    requires |v| == 8 && forall i | 0 <= i < 8 :: v[i] == BitOf(methods, 8 * k + i, 1)
    ensures BitmapByte(methods, k) == ByteOf(v)
  {
    EightBits(v);
    BitScales(methods, 8 * k + 1, 2);
    BitScales(methods, 8 * k + 2, 4);
    BitScales(methods, 8 * k + 3, 8);
    BitScales(methods, 8 * k + 4, 16);
    BitScales(methods, 8 * k + 5, 32);
    BitScales(methods, 8 * k + 6, 64);
    BitScales(methods, 8 * k + 7, 128);
  }

  /** The bits of one byte of the bitmap. */
  lemma {:induction false} BitmapByteBits(methods: seq<Option<CompiledMethod>>, k: nat, r: nat)
    requires r < 8
    ensures Shifted(BitmapByte(methods, k), r) % 2 == BitOf(methods, 8 * k + r, 1)
  {
    var v := seq<nat>(8, i requires 0 <= i < 8 => BitOf(methods, 8 * k + i, 1));
    ByteIs(methods, k, v);
    BitOfByte(v, r);
  }

  lemma BitReads(contents: seq<Byte>, at: nat, methods: seq<Option<CompiledMethod>>, j: nat)
    requires Placed(contents, at, BitmapBytes(methods)) && j < |methods|
    ensures BitAt(contents, at, j) <==> methods[j].Some?
  {
    var k, r := j / 8, j % 8;
    assert k < |BitmapBytes(methods)| && 8 * k + r == j;
    assert At(contents, at + k) == BitmapBytes(methods)[k];
    BitmapByteBits(methods, k, r);
  }

  lemma CompiledStep(methods: seq<Option<CompiledMethod>>, k: nat)
    requires k < |methods|
    ensures |Compiled(methods[..k + 1])| == |Compiled(methods[..k])| + if methods[k].Some? then 1 else 0
  {
    assert methods[..k + 1][..k] == methods[..k];
  }

  lemma {:induction false} CompiledAtMost(methods: seq<Option<CompiledMethod>>)
    ensures |Compiled(methods)| <= |methods|
  {
    if methods != [] {
      CompiledAtMost(methods[..|methods| - 1]);
    }
  }

  lemma {:induction false} AllCompiled(methods: seq<Option<CompiledMethod>>, j: nat)
    requires |Compiled(methods)| == |methods| && j < |methods|
    ensures methods[j].Some? && |Compiled(methods[..j])| == j
  {
    var n := |methods| - 1;
    CompiledAtMost(methods[..n]);
    if j < n {
      AllCompiled(methods[..n], j);
      assert methods[..n][..j] == methods[..j];
    }
  }

  lemma {:induction false} NoneCompiled(methods: seq<Option<CompiledMethod>>, j: nat)
    requires |Compiled(methods)| == 0 && j < |methods|
    ensures methods[j].None?
  {
    if methods[j].Some? {
      CompiledRank(methods, j);
    }
  }

  function SetBits(contents: seq<Byte>, at: nat, end: nat): nat {
    if end == 0 then 0 else SetBits(contents, at, end - 1) + if BitAt(contents, at, end - 1) then 1 else 0
  }

  /** Where the record at `at` keeps the code offset of method `j`, by its type and its bitmap. */
  function SlotFound(contents: seq<Byte>, at: nat, j: nat): Option<nat> {
    match HalfAt(contents, at + 2)
    case 0 => Some(at + 4 + 4 * j)
    case 2 => None
    case _ =>
      if BitAt(contents, at + 8, j) then Some(at + 8 + WordAt(contents, at + 4) + 4 * SetBits(contents, at + 8, j)) else None
  }

  /** `NumSetBits`: the set bits below `end`. */
  method NumSetBits(contents: seq<Byte>, at: nat, end: nat, ghost methods: seq<Option<CompiledMethod>>)
    returns (count: nat)
    requires Placed(contents, at, BitmapBytes(methods)) && end <= |methods|
    ensures count == SetBits(contents, at, end) == |Compiled(methods[..end])|
  {
    count := 0;
    for k := 0 to end
      invariant count == SetBits(contents, at, k) == |Compiled(methods[..k])|
    {
      BitReads(contents, at, methods, k);
      CompiledStep(methods, k);
      if BitAt(contents, at, k) {
        count := count + 1;
      }
    }
  }

  lemma {:induction false} SetBitsCount(contents: seq<Byte>, at: nat, end: nat, methods: seq<Option<CompiledMethod>>)
    requires Placed(contents, at, BitmapBytes(methods)) && end <= |methods|
    ensures SetBits(contents, at, end) == |Compiled(methods[..end])|
  {
    if end > 0 {
      SetBitsCount(contents, at, end - 1, methods);
      BitReads(contents, at, methods, end - 1);
      CompiledStep(methods, end - 1);
    }
  }

  /** It is found if and only if the method is compiled. */
  lemma SlotIsFound(contents: seq<Byte>, at: nat, j: nat, c: DexClass, offsets: seq<nat>)
    requires Placed(contents, at, Flat(ClassFields(c, offsets))) && ClassSize(c) < TWO32 && j < |c.methods|
    ensures SlotFound(contents, at, j) == if c.methods[j].Some? then Some(at + MethodSlot(c, j)) else None
  {
    TypeReads(contents, at, c, offsets);
    if ClassType(c) == 2 {
      NoneCompiled(c.methods, j);
    } else if ClassType(c) == 0 {
      AllCompiled(c.methods, j);
    } else {
      BitmapReads(contents, at, c, offsets);
      BitReads(contents, at + 8, c.methods, j);
      SetBitsCount(contents, at + 8, j, c.methods);
    }
  }

  /** The slot of method `j` in the class record at `at`, if the method is compiled: found from the type
      and the bitmap of the record. */
  method GetOatMethodOffsets(contents: seq<Byte>, at: nat, j: nat, ghost c: DexClass, ghost offsets: seq<nat>)
    returns (slot: Option<nat>)
    requires Placed(contents, at, Flat(ClassFields(c, offsets))) && ClassSize(c) < TWO32 && j < |c.methods|
    ensures slot == SlotFound(contents, at, j)
    ensures slot == if c.methods[j].Some? then Some(at + MethodSlot(c, j)) else None
  {
    TypeReads(contents, at, c, offsets);
    var type_ := HalfAt(contents, at + 2);
    if type_ == 2 {
      NoneCompiled(c.methods, j);
      slot := None;
    } else if type_ == 0 {
      AllCompiled(c.methods, j);
      slot := Some(at + 4 + 4 * j);
    } else {
      BitmapReads(contents, at, c, offsets);
      var bitmap, bitmapSize := at + 8, WordAt(contents, at + 4);
      BitReads(contents, bitmap, c.methods, j);
      if BitAt(contents, bitmap, j) {
        var rank := NumSetBits(contents, bitmap, j, c.methods);
        slot := Some(bitmap + bitmapSize + 4 * rank);
      } else {
        slot := None;
      }
    }
  }

  // ----- from the class record to the tables -----

  /** The number of a method among all compiled methods. */
  function MethodNumber(classes: seq<DexClass>, i: nat, j: nat): nat
    requires i < |classes| && j < |classes[i].methods|
  {
    |Methods(classes[..i])| + |Compiled(classes[i].methods[..j])|
  }

  lemma {:induction false} MethodAt(classes: seq<DexClass>, i: nat, k: nat)
    requires i < |classes| && k < |Compiled(classes[i].methods)|
    ensures |Methods(classes[..i])| + k < |Methods(classes)|
    ensures Methods(classes)[|Methods(classes[..i])| + k] == Compiled(classes[i].methods)[k]
  {
    var n := |classes| - 1;
    if i < n {
      MethodAt(classes[..n], i, k);
      assert classes[..n][..i] == classes[..i];
    }
  }

  lemma {:induction false} MethodIsNumbered(classes: seq<DexClass>, i: nat, j: nat)
    requires i < |classes| && j < |classes[i].methods| && classes[i].methods[j].Some?
    ensures MethodNumber(classes, i, j) < |Methods(classes)|
    ensures Methods(classes)[MethodNumber(classes, i, j)] == classes[i].methods[j].value
  {
    CompiledRank(classes[i].methods, j);
    MethodAt(classes, i, |Compiled(classes[i].methods[..j])|);
  }

  lemma {:induction false} OffsetOf(classes: seq<DexClass>, code: seq<nat>, i: nat, k: nat)
    requires |code| == |Methods(classes)| && i < |classes| && k < |Compiled(classes[i].methods)|
    ensures |Methods(classes[..i])| + k < |code|
    ensures CodeOffsetsOf(classes, code, i)[k] == code[|Methods(classes[..i])| + k]
  {
    MethodsPrefix(classes, i);
    MethodsPrefix(classes, i + 1);
  }

  /** The word in the slot of a method is its code offset. */
  lemma {:induction false} SlotReadsBack(contents: seq<Byte>, at: nat, classes: seq<DexClass>, code: seq<nat>, i: nat,
                                         j: nat)
    requires |code| == |Methods(classes)| && i < |classes| && j < |classes[i].methods| && classes[i].methods[j].Some?
    requires Placed(contents, at, Flat(ClassFields(classes[i], CodeOffsetsOf(classes, code, i))))
    ensures MethodNumber(classes, i, j) < |code|
    ensures code[MethodNumber(classes, i, j)] < TWO32 ==>
              WordAt(contents, at + MethodSlot(classes[i], j)) == code[MethodNumber(classes, i, j)]
  {
    var rank := |Compiled(classes[i].methods[..j])|;
    assert rank < |Compiled(classes[i].methods)| by {
      CompiledRank(classes[i].methods, j);
    }
    OffsetOf(classes, code, i, rank);
    if code[MethodNumber(classes, i, j)] < TWO32 {
      WordOfRecord(contents, at, classes[i], CodeOffsetsOf(classes, code, i), j);
    }
  }

  lemma WordOfRecord(contents: seq<Byte>, at: nat, c: DexClass, offsets: seq<nat>, j: nat)
    requires j < |c.methods| && c.methods[j].Some? && |offsets| == |Compiled(c.methods)|
    requires |Compiled(c.methods[..j])| < |offsets| && offsets[|Compiled(c.methods[..j])|] < TWO32
    requires Placed(contents, at, Flat(ClassFields(c, offsets)))
    ensures WordAt(contents, at + MethodSlot(c, j)) == offsets[|Compiled(c.methods[..j])|]
  {
    var offset, bytes, slot := offsets[|Compiled(c.methods[..j])|], Flat(ClassFields(c, offsets)), MethodSlot(c, j);
    assert slot + 4 <= |bytes| && bytes[slot..slot + 4] == WordBytes(offset) by {
      CodeOffsetFound(c, offsets, j);
    }
    WordInside(contents, at, bytes, slot, offset);
  }

  /** The table that a header leads to, from the code behind it: none for 0, and else so many bytes before the
      code. */
  ghost predicate TableReads(contents: seq<Byte>, base: nat, mem: Memory, code: nat, stored: Word32, id: nat) {
    if mem(id) == [] then stored == 0
    else 0 < stored <= code && Placed(contents, base + code - stored, mem(id))
  }

  ghost predicate TablesRead(contents: seq<Byte>, base: nat, mem: Memory, code: nat, h: MethodHeader,
                             method_: CompiledMethod)
  {
    && TableReads(contents, base, mem, code, h.gcMap, method_.gcMap)
    && TableReads(contents, base, mem, code, h.mapping, method_.mapping)
    && TableReads(contents, base, mem, code, h.vmap, method_.vmap)
  }

  /** From a header in front of the code at `code`, the size of the code and the three tables are found. */
  ghost predicate HeaderTells(contents: seq<Byte>, base: nat, mem: Memory, code: nat, h: MethodHeader,
                              method_: CompiledMethod)
    requires method_.code.Some?
  {
    h.codeSize == |mem(method_.code.value)| && TablesRead(contents, base, mem, code, h, method_)
  }

  /** What the runtime reads for a method whose code offset is the word at `slot`: its code, and through
      the header in front of the code the size of the code and the three tables. */
  ghost predicate MethodReads(contents: seq<Byte>, base: nat, mem: Memory, thumb: nat, slot: nat,
                              method_: CompiledMethod)
    requires method_.code.Some?
  {
    WordAt(contents, slot) >= thumb + HEADER_SIZE &&
    var code := WordAt(contents, slot) - thumb;
    && Placed(contents, base + code, mem(method_.code.value))
    && HeaderTells(contents, base, mem, code, HeaderAt(contents, base + code), method_)
  }

  /** What is stored for a table before the code. */
  lemma StoredIs(isa: Isa, codeOffset: nat, offset: nat)
    requires isa.thumb <= codeOffset < TWO32 && offset < codeOffset - isa.thumb
    ensures StoredOffset(isa, false, codeOffset, offset) == if offset == 0 then 0 else codeOffset - isa.thumb - offset
  {
    WordIsItself(offset);
    WordIsItself(codeOffset - isa.thumb);
    if offset != 0 {
      RebasedIs(offset, codeOffset - isa.thumb);
    }
  }

  ghost predicate StoredReads(contents: seq<Byte>, base: nat, mem: Memory, isa: Isa, codeOffset: nat, offset: nat,
                              id: nat)
  {
    && isa.thumb <= codeOffset
    && TableReads(contents, base, mem, codeOffset - isa.thumb, StoredOffset(isa, false, codeOffset, offset), id)
  }

  lemma HeaderMade(contents: seq<Byte>, base: nat, mem: Memory, isa: Isa, method_: CompiledMethod, codeOffset: nat,
                   mapping: nat, vmap: nat, gcMap: nat)
    requires method_.code.Some?
    requires StoredReads(contents, base, mem, isa, codeOffset, mapping, method_.mapping)
    requires StoredReads(contents, base, mem, isa, codeOffset, vmap, method_.vmap)
    requires StoredReads(contents, base, mem, isa, codeOffset, gcMap, method_.gcMap)
    ensures var h := MakeHeader(mem, isa, method_, codeOffset, mapping, vmap, gcMap);
            TablesRead(contents, base, mem, codeOffset - isa.thumb, h, method_)
  {
  }

  lemma TableFound(contents: seq<Byte>, base: nat, mem: Memory, isa: Isa, ids: seq<nat>, start: nat, codeOffset: nat,
                   f: nat, id: nat)
    requires f < |ids| && ids[f] == id && start > 0 && AllWritten(contents, base + start, mem, ids)
    requires isa.thumb <= codeOffset < TWO32 && Offset(mem, ids, start, f) < codeOffset - isa.thumb
    ensures StoredReads(contents, base, mem, isa, codeOffset, Offset(mem, ids, start, f), id)
  {
    StoredIs(isa, codeOffset, Offset(mem, ids, start, f));
    WrittenAtOffset(contents, base, mem, ids, start, f);
  }

  /** Tables lie before the code that refers to them. */
  lemma TablesBehind(mem: Memory, isa: Isa, methods: seq<CompiledMethod>, m: Marks, f: nat, code: nat)
    requires ValidIsa(isa) && CodeOk(mem, Visits(methods)) && MapMarks(mem, isa, methods, m)
    requires f < |methods| && methods[f].code.Some? && code == CodeOffset(mem, isa, Visits(methods), m.code, f)
    ensures isa.thumb <= code < TWO32
    ensures Offset(mem, GcMaps(methods), m.gcMaps, f) < code - isa.thumb
    ensures Offset(mem, Mappings(methods), m.mappings, f) < code - isa.thumb
    ensures Offset(mem, Vmaps(methods), m.vmaps, f) < code - isa.thumb
  {
    CodeOffsetBounds(mem, isa, Visits(methods), m.code, f);
    TablesBeforeCode(mem, isa, methods, m, f);
  }

  /** Each of the three tables of a method is found from what its header stores. */
  lemma AllTablesFound(contents: seq<Byte>, base: nat, mem: Memory, isa: Isa, methods: seq<CompiledMethod>, m: Marks,
                       f: nat, code: nat)
    requires MapsPlaced(contents, base, mem, methods, m) && f < |methods|
    requires m.gcMaps > 0 && m.mappings > 0 && m.vmaps > 0 && isa.thumb <= code < TWO32
    requires Offset(mem, GcMaps(methods), m.gcMaps, f) < code - isa.thumb
    requires Offset(mem, Mappings(methods), m.mappings, f) < code - isa.thumb
    requires Offset(mem, Vmaps(methods), m.vmaps, f) < code - isa.thumb
    ensures StoredReads(contents, base, mem, isa, code, Offset(mem, GcMaps(methods), m.gcMaps, f), methods[f].gcMap)
    ensures StoredReads(contents, base, mem, isa, code, Offset(mem, Mappings(methods), m.mappings, f),
                        methods[f].mapping)
    ensures StoredReads(contents, base, mem, isa, code, Offset(mem, Vmaps(methods), m.vmaps, f), methods[f].vmap)
  {
    TableFound(contents, base, mem, isa, GcMaps(methods), m.gcMaps, code, f, methods[f].gcMap);
    TableFound(contents, base, mem, isa, Mappings(methods), m.mappings, code, f, methods[f].mapping);
    TableFound(contents, base, mem, isa, Vmaps(methods), m.vmaps, code, f, methods[f].vmap);
  }

  /** The header of a method leads to its tables. */
  lemma HeaderFinds(contents: seq<Byte>, base: nat, mem: Memory, isa: Isa, methods: seq<CompiledMethod>, m: Marks,
                    f: nat)
    requires ValidIsa(isa) && CodeOk(mem, Visits(methods)) && MapMarks(mem, isa, methods, m) && m.gcMaps > 0
    requires MapsPlaced(contents, base, mem, methods, m) && f < |methods| && methods[f].code.Some?
    ensures var h := HeaderFor(mem, isa, methods, m, f);
            var code := CodeOffset(mem, isa, Visits(methods), m.code, f);
            isa.thumb <= code < TWO32 && TablesRead(contents, base, mem, code - isa.thumb, h, methods[f])
  {
    var code := CodeOffset(mem, isa, Visits(methods), m.code, f);
    TablesBehind(mem, isa, methods, m, f, code);
    AllTablesFound(contents, base, mem, isa, methods, m, f, code);
    HeaderMade(contents, base, mem, isa, methods[f], code, Offset(mem, Mappings(methods), m.mappings, f),
               Offset(mem, Vmaps(methods), m.vmaps, f), Offset(mem, GcMaps(methods), m.gcMaps, f));
  }

  /** `FoundAt`; the quantifier keeps it out of sight where it does not matter. */
  ghost predicate Finds(contents: seq<Byte>, base: nat, offset: nat, thumb: nat, h: MethodHeader, code: seq<Byte>) {
    forall x {:trigger FoundAt(contents, base, offset, thumb, x, code)} | x == h ::
      FoundAt(contents, base, offset, thumb, x, code)
  }

  /** `HeaderTells`, likewise. */
  ghost predicate Tells(contents: seq<Byte>, base: nat, mem: Memory, code: nat, h: MethodHeader,
                        method_: CompiledMethod)
    requires method_.code.Some?
  {
    forall x {:trigger HeaderTells(contents, base, mem, code, x, method_)} | x == h ::
      HeaderTells(contents, base, mem, code, x, method_)
  }

  lemma Assembled(contents: seq<Byte>, base: nat, mem: Memory, thumb: nat, slot: nat, method_: CompiledMethod,
                  code: Word32, h: MethodHeader)
    requires method_.code.Some?
    requires Finds(contents, base, code, thumb, h, mem(method_.code.value))
    requires code >= thumb && Tells(contents, base, mem, code - thumb, h, method_)
    ensures WordAt(contents, slot) == code ==> MethodReads(contents, base, mem, thumb, slot, method_)
  {
    assert HeaderTells(contents, base, mem, code - thumb, h, method_);
    assert FoundAt(contents, base, code, thumb, h, mem(method_.code.value));
    HeaderReadsBack(contents, base + code - thumb, h);
  }

  /** The code is smaller than the file. */
  lemma {:induction false} CodeIsSmall(mem: Memory, isa: Isa, visits: seq<Visit>, start: nat, i: nat)
    requires ValidIsa(isa) && i < |visits| && visits[i].Quick?
    requires CodeEnd(mem, isa, visits, start, |visits|) < TWO32
    ensures |mem(visits[i].key.code)| < TWO32
  {
    assert visits[i] in visits[..|visits|];
    CodePlaceBelow(mem, isa, visits, start, visits[i], |visits|);
  }

  lemma {:induction false} SizeIsStored(mem: Memory, isa: Isa, methods: seq<CompiledMethod>, m: Marks, f: nat)
    requires ValidIsa(isa) && f < |methods| && methods[f].code.Some?
    requires CodeEnd(mem, isa, Visits(methods), m.code, |methods|) < TWO32
    ensures HeaderFor(mem, isa, methods, m, f).codeSize == |mem(methods[f].code.value)|
  {
    CodeIsSmall(mem, isa, Visits(methods), m.code, f);
    WordIsItself(|mem(methods[f].code.value)|);
  }

  lemma SameTables(contents: seq<Byte>, base: nat, mem: Memory, code: nat, h: MethodHeader, a: CompiledMethod,
                   b: CompiledMethod)
    requires b.code.Some? && VisitOf(a) == VisitOf(b) && Tells(contents, base, mem, code, h, a)
    ensures Tells(contents, base, mem, code, h, b)
  {
    assert HeaderTells(contents, base, mem, code, h, a);
  }

  lemma OwnHeader(contents: seq<Byte>, base: nat, mem: Memory, isa: Isa, methods: seq<CompiledMethod>, m: Marks,
                  f: nat, h: MethodHeader, code: nat)
    requires ValidIsa(isa) && CodeOk(mem, Visits(methods)) && MapMarks(mem, isa, methods, m) && m.gcMaps > 0
    requires MapsPlaced(contents, base, mem, methods, m) && f < |methods| && methods[f].code.Some?
    requires h == HeaderFor(mem, isa, methods, m, f) && code == CodeOffset(mem, isa, Visits(methods), m.code, f)
    ensures isa.thumb <= code < TWO32 && Tells(contents, base, mem, code - isa.thumb, h, methods[f])
  {
    HeaderFinds(contents, base, mem, isa, methods, m, f);
    SizeIsStored(mem, isa, methods, m, f);
  }

  /** The header of a method that shares code and tables with method `n`, as method `n` reads it. */
  lemma SharedHeader(contents: seq<Byte>, base: nat, mem: Memory, isa: Isa, methods: seq<CompiledMethod>, m: Marks,
                     f: nat, n: nat, h: MethodHeader, code: nat)
    requires ValidIsa(isa) && CodeOk(mem, Visits(methods)) && MapMarks(mem, isa, methods, m) && m.gcMaps > 0
    requires MapsPlaced(contents, base, mem, methods, m) && f < |methods| && n < |methods|
    requires methods[n].code.Some? && VisitOf(methods[f]) == VisitOf(methods[n])
    requires h == HeaderFor(mem, isa, methods, m, f) && code == CodeOffset(mem, isa, Visits(methods), m.code, n)
    ensures isa.thumb <= code < TWO32 && Tells(contents, base, mem, code - isa.thumb, h, methods[n])
  {
    SharedTables(mem, isa, methods, m, f, n);
    OwnHeader(contents, base, mem, isa, methods, m, f, h, code);
    SameTables(contents, base, mem, code - isa.thumb, h, methods[f], methods[n]);
  }

  lemma SharedReads(contents: seq<Byte>, base: nat, mem: Memory, isa: Isa, methods: seq<CompiledMethod>, m: Marks,
                    f: nat, n: nat, h: MethodHeader, code: nat, slot: nat)
    requires ValidIsa(isa) && CodeOk(mem, Visits(methods)) && MapMarks(mem, isa, methods, m) && m.gcMaps > 0
    requires MapsPlaced(contents, base, mem, methods, m) && f < |methods| && n < |methods|
    requires methods[n].code.Some? && VisitOf(methods[f]) == VisitOf(methods[n])
    requires h == HeaderFor(mem, isa, methods, m, f) && code == CodeOffset(mem, isa, Visits(methods), m.code, n)
    requires Finds(contents, base, code, isa.thumb, h, mem(methods[n].code.value))
    ensures code < TWO32
    ensures WordAt(contents, slot) == code ==> MethodReads(contents, base, mem, isa.thumb, slot, methods[n])
  {
    SharedHeader(contents, base, mem, isa, methods, m, f, n, h, code);
    Assembled(contents, base, mem, isa.thumb, slot, methods[n], code, h);
  }

  /** The same, when the code offset is known. */
  lemma CodeReads(contents: seq<Byte>, base: nat, mem: Memory, isa: Isa, methods: seq<CompiledMethod>, m: Marks,
                  l: Layout, slot: nat, n: nat)
    requires ValidIsa(isa) && CodeOk(mem, Visits(methods)) && MapMarks(mem, isa, methods, m) && m.gcMaps > 0
    requires IsCodeLayout(mem, isa, methods, m, l) && MapsPlaced(contents, base, mem, methods, m)
    requires CodeWritten(contents, base, mem, isa, Visits(methods), l.headers, m.code, |methods|)
    requires n < |methods| && methods[n].code.Some?
    ensures l.code[n] < TWO32
    ensures WordAt(contents, slot) == l.code[n] ==> MethodReads(contents, base, mem, isa.thumb, slot, methods[n])
  {
    var f := MethodReadable(contents, base, mem, isa, methods, m, l, n);
    SharedReads(contents, base, mem, isa, methods, m, f, n, l.headers[f], l.code[n], slot);
  }

  /** The same, through the class record. */
  lemma {:induction false} RecordLeads(contents: seq<Byte>, base: nat, mem: Memory, isa: Isa, classes: seq<DexClass>,
                                       m: Marks, l: Layout, at: nat, i: nat, j: nat)
    requires ValidIsa(isa) && CodeOk(mem, Visits(Methods(classes))) && MapMarks(mem, isa, Methods(classes), m)
    requires m.gcMaps > 0
    requires IsCodeLayout(mem, isa, Methods(classes), m, l) && MapsPlaced(contents, base, mem, Methods(classes), m)
    requires CodeWritten(contents, base, mem, isa, Visits(Methods(classes)), l.headers, m.code, |Methods(classes)|)
    requires i < |classes| && j < |classes[i].methods|
    requires classes[i].methods[j].Some? && classes[i].methods[j].value.code.Some?
    requires Placed(contents, at, Flat(ClassFields(classes[i], CodeOffsetsOf(classes, l.code, i))))
    ensures MethodReads(contents, base, mem, isa.thumb, at + MethodSlot(classes[i], j), classes[i].methods[j].value)
  {
    var n := MethodNumber(classes, i, j);
    MethodIsNumbered(classes, i, j);
    CodeReads(contents, base, mem, isa, Methods(classes), m, l, at + MethodSlot(classes[i], j), n);
    SlotReadsBack(contents, at, classes, l.code, i, j);
  }

  /** In the written file, every compiled method of every class is read back through its class record. */
  lemma EveryMethodReads(contents: seq<Byte>, base: nat, input: Input, m: Marks, l: Layout, i: nat, j: nat)
    requires ValidInput(input) && IsMarks(input, m) && IsLayout(input, m, l) && l.size < TWO32
    requires FilePlaced(contents, base, input, m, l)
    requires i < |Classes(input.dexFiles)| && j < |Classes(input.dexFiles)[i].methods|
    requires Classes(input.dexFiles)[i].methods[j].Some? && Classes(input.dexFiles)[i].methods[j].value.code.Some?
    ensures var c := Classes(input.dexFiles)[i];
            MethodReads(contents, base, input.mem, input.isa.thumb, base + l.classes[i] + MethodSlot(c, j),
                        c.methods[j].value)
  {
    var classes := Classes(input.dexFiles);
    MapsBeforeCode(input, m);
    RecordPlaced(contents, base, input, m, l, i);
    assert IsCodeLayout(input.mem, input.isa, Methods(classes), m, l);
    RecordLeads(contents, base, input.mem, input.isa, classes, m, l, base + l.classes[i], i, j);
  }

  lemma MapsBeforeCode(input: Input, m: Marks)
    requires ValidInput(input) && IsMarks(input, m) && m.size < TWO32
    ensures MapMarks(input.mem, input.isa, Methods(Classes(input.dexFiles)), m) && m.gcMaps > 0
  {
    MarksOrdered(input, m);
  }

  lemma RecordPlaced(contents: seq<Byte>, base: nat, input: Input, m: Marks, l: Layout, i: nat)
    requires ValidInput(input) && IsLayout(input, m, l) && TablesPlaced(contents, base, input, m, l)
    requires i < |Classes(input.dexFiles)|
    ensures |l.code| == |Methods(Classes(input.dexFiles))|
    ensures Placed(contents, base + l.classes[i], Flat(ClassRecord(Classes(input.dexFiles), l.code, i)))
  {
  }

  lemma RecordSmall(input: Input, m: Marks, l: Layout, i: nat)
    requires ValidInput(input) && IsMarks(input, m) && m.size < TWO32 && i < |Classes(input.dexFiles)|
    ensures ClassSize(Classes(input.dexFiles)[i]) < TWO32
  {
    var chunks := ClassChunks(Classes(input.dexFiles));
    MarksOrdered(input, m);
    StartWithin(chunks, m.classes, i);
    assert chunks[i].size == ClassSize(Classes(input.dexFiles)[i]);
  }

  lemma RecordFound(contents: seq<Byte>, base: nat, oat: Oat, i: nat)
    requires OatPlaced(contents, base, oat) && i < |Classes(oat.input.dexFiles)|
    ensures var classes := Classes(oat.input.dexFiles);
            && |oat.layout.code| == |Methods(classes)| && i < |oat.layout.classes| && ClassSize(classes[i]) < TWO32
            && Placed(contents, base + oat.layout.classes[i], Flat(ClassRecord(classes, oat.layout.code, i)))
  {
    assert IsOatAt(contents, base, oat);
    RecordPlaced(contents, base, oat.input, oat.marks, oat.layout, i);
    RecordSmall(oat.input, oat.marks, oat.layout, i);
  }

  /** The frame in front of the code of a method is that of the first method that shares code and tables. */
  lemma FrameReads(contents: seq<Byte>, base: nat, mem: Memory, isa: Isa, methods: seq<CompiledMethod>, m: Marks,
                   l: Layout, n: nat) returns (f: nat)
    requires ValidIsa(isa) && IsCodeLayout(mem, isa, methods, m, l)
    requires CodeWritten(contents, base, mem, isa, Visits(methods), l.headers, m.code, |methods|)
    requires n < |methods| && methods[n].code.Some?
    ensures f <= n && VisitOf(methods[f]) == VisitOf(methods[n])
    ensures forall k | 0 <= k < f :: VisitOf(methods[k]) != VisitOf(methods[f])
    ensures l.code[n] >= isa.thumb + HEADER_SIZE
    ensures HeaderAt(contents, base + l.code[n] - isa.thumb).frame == methods[f].frame
  {
    f := MethodReadable(contents, base, mem, isa, methods, m, l, n);
    FirstOfVisits(methods, f);
    FrameStored(mem, isa, methods, m, l, f);
    FrameFound(contents, base, l.code[n], isa.thumb, l.headers[f], mem(methods[n].code.value));
  }

  lemma {:induction false} FirstOfVisits(methods: seq<CompiledMethod>, f: nat)
    requires f < |methods| && FreshCode(Visits(methods), f)
    ensures forall k | 0 <= k < f :: VisitOf(methods[k]) != VisitOf(methods[f])
  {
    forall k | 0 <= k < f ensures VisitOf(methods[k]) != VisitOf(methods[f]) {
      assert Visits(methods)[k] in Visits(methods)[..f];
    }
  }

  lemma FrameFound(contents: seq<Byte>, base: nat, offset: nat, thumb: nat, h: MethodHeader, code: seq<Byte>)
    requires FoundAt(contents, base, offset, thumb, h, code)
    ensures HeaderAt(contents, base + offset - thumb).frame == h.frame
  {
    HeaderReadsBack(contents, base + offset - thumb, h);
  }

  lemma FrameStored(mem: Memory, isa: Isa, methods: seq<CompiledMethod>, m: Marks, l: Layout, f: nat)
    requires isa.align > 0 && IsCodeLayout(mem, isa, methods, m, l) && f < |methods| && methods[f].code.Some?
    ensures l.headers[f].frame == methods[f].frame
  {
  }

  /** What the runtime finds for method `j` of the class record at `at`: nothing if it is not compiled, a zero
      if it has no quick code, and else the method. */
  ghost predicate EntryReads(contents: seq<Byte>, base: nat, mem: Memory, thumb: nat, at: nat, j: nat,
                             entry: Option<CompiledMethod>)
  {
    var slot := SlotFound(contents, at, j);
    match entry
    case None => slot.None?
    case Some(method_) =>
      slot.Some? &&
      if method_.code.None? then WordAt(contents, slot.value) == 0
      else MethodReads(contents, base, mem, thumb, slot.value, method_)
  }

  /** The class record at `at` is that of `c`: it has its status, and all methods are found. */
  ghost predicate ClassReads(contents: seq<Byte>, base: nat, mem: Memory, thumb: nat, at: nat, c: DexClass) {
    && HalfAt(contents, at) == c.status
    && forall j {:trigger c.methods[j]} | 0 <= j < |c.methods| ::
         EntryReads(contents, base, mem, thumb, at, j, c.methods[j])
  }

  lemma {:induction false} PortableSlot(contents: seq<Byte>, at: nat, mem: Memory, isa: Isa, classes: seq<DexClass>,
                                        m: Marks, l: Layout, i: nat, j: nat)
    requires isa.align > 0 && IsCodeLayout(mem, isa, Methods(classes), m, l)
    requires i < |classes| && j < |classes[i].methods|
    requires classes[i].methods[j].Some? && classes[i].methods[j].value.code.None?
    requires Placed(contents, at, Flat(ClassFields(classes[i], CodeOffsetsOf(classes, l.code, i))))
    ensures WordAt(contents, at + MethodSlot(classes[i], j)) == 0
  {
    MethodIsNumbered(classes, i, j);
    OffsetAligned(mem, isa, Methods(classes), m, l, MethodNumber(classes, i, j));
    SlotReadsBack(contents, at, classes, l.code, i, j);
  }

  lemma CodeLaidOut(contents: seq<Byte>, base: nat, oat: Oat)
    requires OatPlaced(contents, base, oat)
    ensures var methods := Methods(Classes(oat.input.dexFiles));
            && oat.input.isa.align > 0
            && IsCodeLayout(oat.input.mem, oat.input.isa, methods, oat.marks, oat.layout)
  {
    assert IsOatAt(contents, base, oat);
  }

  /** A method without quick code has the code offset zero. */
  lemma PortableReads(contents: seq<Byte>, base: nat, oat: Oat, i: nat, j: nat)
    requires OatPlaced(contents, base, oat) && i < |Classes(oat.input.dexFiles)|
    requires j < |Classes(oat.input.dexFiles)[i].methods|
    requires var entry := Classes(oat.input.dexFiles)[i].methods[j]; entry.Some? && entry.value.code.None?
    ensures var c := Classes(oat.input.dexFiles)[i];
            i < |oat.layout.classes| && WordAt(contents, base + oat.layout.classes[i] + MethodSlot(c, j)) == 0
  {
    var classes := Classes(oat.input.dexFiles);
    RecordFound(contents, base, oat, i);
    assert oat.input.isa.align > 0
        && IsCodeLayout(oat.input.mem, oat.input.isa, Methods(classes), oat.marks, oat.layout) by {
      CodeLaidOut(contents, base, oat);
    }
    PortableSlot(contents, base + oat.layout.classes[i], oat.input.mem, oat.input.isa, classes, oat.marks, oat.layout,
                 i, j);
  }

  lemma QuickReads(contents: seq<Byte>, base: nat, oat: Oat, i: nat, j: nat)
    requires OatPlaced(contents, base, oat) && i < |Classes(oat.input.dexFiles)|
    requires j < |Classes(oat.input.dexFiles)[i].methods|
    requires var entry := Classes(oat.input.dexFiles)[i].methods[j]; entry.Some? && entry.value.code.Some?
    ensures var c := Classes(oat.input.dexFiles)[i];
            && i < |oat.layout.classes|
            && MethodReads(contents, base, oat.input.mem, oat.input.isa.thumb,
                           base + oat.layout.classes[i] + MethodSlot(c, j), c.methods[j].value)
  {
    assert IsOatAt(contents, base, oat);
    EveryMethodReads(contents, base, oat.input, oat.marks, oat.layout, i, j);
  }

  lemma FindsSlot(contents: seq<Byte>, base: nat, oat: Oat, i: nat, j: nat)
    requires OatPlaced(contents, base, oat) && i < |Classes(oat.input.dexFiles)| && i < |oat.layout.classes|
    requires j < |Classes(oat.input.dexFiles)[i].methods|
    ensures var c := Classes(oat.input.dexFiles)[i];
            var slot := if c.methods[j].Some? then Some(base + oat.layout.classes[i] + MethodSlot(c, j)) else None;
            SlotFound(contents, base + oat.layout.classes[i], j) == slot
  {
    var classes := Classes(oat.input.dexFiles);
    RecordFound(contents, base, oat, i);
    SlotIsFound(contents, base + oat.layout.classes[i], j, classes[i], CodeOffsetsOf(classes, oat.layout.code, i));
  }

  lemma EntryFound(contents: seq<Byte>, base: nat, oat: Oat, i: nat, j: nat)
    requires OatPlaced(contents, base, oat) && i < |Classes(oat.input.dexFiles)| && i < |oat.layout.classes|
    requires j < |Classes(oat.input.dexFiles)[i].methods|
    ensures EntryReads(contents, base, oat.input.mem, oat.input.isa.thumb, base + oat.layout.classes[i], j,
                       Classes(oat.input.dexFiles)[i].methods[j])
  {
    var classes := Classes(oat.input.dexFiles);
    FindsSlot(contents, base, oat, i, j);
    if classes[i].methods[j].Some? {
      if classes[i].methods[j].value.code.Some? {
        QuickReads(contents, base, oat, i, j);
      } else {
        PortableReads(contents, base, oat, i, j);
      }
    }
  }

  /** In an oat file, also inside an ELF file, every class is read back from its record. */
  lemma ClassFound(contents: seq<Byte>, base: nat, oat: Oat, i: nat)
    requires OatPlaced(contents, base, oat) && i < |Classes(oat.input.dexFiles)|
    ensures i < |oat.layout.classes|
    ensures ClassReads(contents, base, oat.input.mem, oat.input.isa.thumb, base + oat.layout.classes[i],
                       Classes(oat.input.dexFiles)[i])
  {
    var classes := Classes(oat.input.dexFiles);
    RecordFound(contents, base, oat, i);
    StatusReads(contents, base + oat.layout.classes[i], classes[i], CodeOffsetsOf(classes, oat.layout.code, i));
    forall j | 0 <= j < |classes[i].methods|
      ensures EntryReads(contents, base, oat.input.mem, oat.input.isa.thumb, base + oat.layout.classes[i], j,
                         classes[i].methods[j])
    {
      EntryFound(contents, base, oat, i, j);
    }
  }

  lemma SlotLeads(contents: seq<Byte>, base: nat, oat: Oat, i: nat, j: nat, slot: Option<nat>)
    requires OatPlaced(contents, base, oat) && i < |Classes(oat.input.dexFiles)| && i < |oat.layout.classes|
    requires j < |Classes(oat.input.dexFiles)[i].methods| && slot.Some?
    requires slot == SlotFound(contents, base + oat.layout.classes[i], j)
    ensures var method_ := Classes(oat.input.dexFiles)[i].methods[j];
            && method_.Some?
            && (method_.value.code.Some? ==>
                  MethodReads(contents, base, oat.input.mem, oat.input.isa.thumb, slot.value, method_.value))
  {
    EntryFound(contents, base, oat, i, j);
  }

  /** `GetOatMethod`: finds method `j` of a class in the record at `classOffset` of an oat file. It is found if
      and only if it is compiled, and then its code and its tables are read. */
  method GetOatMethod(contents: seq<Byte>, base: nat, classOffset: nat, j: nat, ghost oat: Oat, ghost i: nat)
    returns (slot: Option<nat>)
    requires OatPlaced(contents, base, oat) && i < |Classes(oat.input.dexFiles)|
    requires i < |oat.layout.classes| && classOffset == oat.layout.classes[i]
    requires j < |Classes(oat.input.dexFiles)[i].methods|
    ensures slot.Some? <==> Classes(oat.input.dexFiles)[i].methods[j].Some?
    ensures var method_ := Classes(oat.input.dexFiles)[i].methods[j];
            slot.Some? && method_.value.code.Some? ==>
              MethodReads(contents, base, oat.input.mem, oat.input.isa.thumb, slot.value, method_.value)
  {
    ghost var classes := Classes(oat.input.dexFiles);
    RecordFound(contents, base, oat, i);
    slot := GetOatMethodOffsets(contents, base + classOffset, j, classes[i], CodeOffsetsOf(classes, oat.layout.code, i));
    if slot.Some? {
      SlotLeads(contents, base, oat, i, j, slot);
    }
  }
}
