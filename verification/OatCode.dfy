/**
 The compiled code of the oat file: (method header, code) pairs, deduplicated by the addresses of
 the code and of its three tables. As with the tables, the init pass promises code offsets and the
 write pass rediscovers the duplicates, here by `code offset >= position`.
 */
module OatCode {
  import opened Bytes
  import opened Streams
  import opened BufferedStream
  import opened OatMaps

  // ----- keys -----

  /** The addresses two methods are compared by. */
  datatype Key = Key(code: nat, mapping: nat, vmap: nat, gcMap: nat)

  /** The comparator of the dedupe map. */
  predicate KeyLess(a: Key, b: Key) {
    if a.code != b.code then a.code < b.code
    else if a.mapping != b.mapping then a.mapping < b.mapping
    else if a.vmap != b.vmap then a.vmap < b.vmap
    else if a.gcMap != b.gcMap then a.gcMap < b.gcMap
    else false
  }

  /** It is a strict order under which only equal keys are equivalent: the map finds exactly the
      methods that agree in all four addresses. */
  lemma KeyOrder(a: Key, b: Key, c: Key)
    ensures !KeyLess(a, b) && !KeyLess(b, a) <==> a == b
    ensures !(KeyLess(a, b) && KeyLess(b, a))
    ensures KeyLess(a, b) && KeyLess(b, c) ==> KeyLess(a, c)
  {
  }

  // ----- table offsets, stored relative to the code -----

  /** What the init pass of the tables stores while the code offset is still 0. */
  function Stored(offset: Word32): Word32 {
    (0 - offset) % TWO32
  }

  /** The adjustment once the code is placed; 0 stands for "no table". */
  function Rebased(stored: Word32, codeStart: Word32): Word32 {
    if stored == 0 then 0 else (stored + codeStart) % TWO32
  }

  /** `GetOffset`: the table offset read back from a header, with the thumb bit cleared. */
  function GetOffset(stored: Word32, codeOffset: Word32): Word32 {
    if stored == 0 then 0 else (codeOffset - codeOffset % 2 - stored) % TWO32
  }

  /** Before the code is placed the offset is read back relative to 0. */
  lemma StoredRecovered(offset: Word32)
    ensures GetOffset(Stored(offset), 0) == offset
  {
  }

  /** After the adjustment it is still read back, if and only if the table does not start exactly
      where the code does; tables lie before the code. */
  lemma OffsetRecovered(offset: Word32, codeStart: Word32, thumb: nat)
    requires codeStart % 2 == 0 && thumb <= 1 && codeStart + thumb < TWO32
    ensures GetOffset(Rebased(Stored(offset), codeStart), codeStart + thumb) == offset
       <==> offset == 0 || offset != codeStart
  {
    var code := codeStart + thumb;
    assert code - code % 2 == codeStart;
    if offset != 0 {
      assert Stored(offset) == TWO32 - offset;
      RebasedIs(offset, codeStart);
    }
  }

  lemma RebasedIs(offset: Word32, codeStart: Word32)
    requires offset != 0
    ensures (TWO32 - offset + codeStart) % TWO32
         == if codeStart < offset then TWO32 - offset + codeStart else codeStart - offset
    ensures offset != codeStart ==> (codeStart - (TWO32 - offset + codeStart) % TWO32) % TWO32 == offset
  {
  }

  // ----- method headers -----

  datatype Frame = Frame(size: Word32, coreSpills: Word32, fpSpills: Word32)

  datatype MethodHeader =
    MethodHeader(mapping: Word32, vmap: Word32, gcMap: Word32, frame: Frame, codeSize: Word32)

  const HEADER_SIZE: nat := 28

  function HeaderBytes(h: MethodHeader): (bytes: seq<Byte>)
    ensures |bytes| == HEADER_SIZE
  {
    WordBytes(h.mapping) + WordBytes(h.vmap) + WordBytes(h.gcMap) + WordBytes(h.frame.size) +
    WordBytes(h.frame.coreSpills) + WordBytes(h.frame.fpSpills) + WordBytes(h.codeSize)
  }

  // ----- the layout -----

  /** The instruction set: its alignment and the bit that marks thumb code. */
  datatype Isa = Isa(align: nat, thumb: nat)

  ghost predicate ValidIsa(isa: Isa) {
    isa.align > 0 && isa.align % 2 == 0 && isa.thumb <= 1
  }

  datatype Visit = Portable | Quick(key: Key)

  /** Quick code is never empty. */
  ghost predicate CodeOk(mem: Memory, visits: seq<Visit>) {
    forall v | v in visits && v.Quick? :: mem(v.key.code) != []
  }

  predicate FreshCode(visits: seq<Visit>, i: nat)
    requires i < |visits|
  {
    visits[i] !in visits[..i]
  }

  /** The position after the first `i` visits. */
  function CodeEnd(mem: Memory, isa: Isa, visits: seq<Visit>, start: nat, i: nat): nat
    requires i <= |visits| && isa.align > 0
  {
    if i == 0 then start
    else
      var before := CodeEnd(mem, isa, visits, start, i - 1);
      if visits[i - 1].Portable? then before
      else
        RoundUp(before, isa.align) +
        if FreshCode(visits, i - 1) then HEADER_SIZE + |mem(visits[i - 1].key.code)| else 0
  }

  /** Where the code of `v` starts. */
  function CodePlace(mem: Memory, isa: Isa, visits: seq<Visit>, start: nat, v: Visit, i: nat): nat
    requires i <= |visits| && isa.align > 0 && v in visits[..i]
  {
    if v in visits[..i - 1] then CodePlace(mem, isa, visits, start, v, i - 1)
    else RoundUp(CodeEnd(mem, isa, visits, start, i - 1), isa.align) + HEADER_SIZE
  }

  /** The code offset promised to visit `i`; portable code has none. */
  function CodeOffset(mem: Memory, isa: Isa, visits: seq<Visit>, start: nat, i: nat): nat
    requires i < |visits| && isa.align > 0
  {
    if visits[i].Portable? then 0
    else
      SeenMember(visits, visits[i], i);
      CodePlace(mem, isa, visits, start, visits[i], i + 1) + isa.thumb
  }

  lemma SeenMember(visits: seq<Visit>, v: Visit, i: nat)
    requires i < |visits|
    ensures v in visits[..i + 1] <==> v in visits[..i] || v == visits[i]
  {
    assert visits[..i + 1] == visits[..i] + [visits[i]];
  }

  lemma {:induction false} CodePlaceStable(mem: Memory, isa: Isa, visits: seq<Visit>, start: nat, v: Visit,
                                           i: nat, j: nat)
    requires i <= j <= |visits| && isa.align > 0 && v in visits[..i]
    ensures v in visits[..j]
    ensures CodePlace(mem, isa, visits, start, v, j) == CodePlace(mem, isa, visits, start, v, i)
    decreases j - i
  {
    if i < j {
      CodePlaceStable(mem, isa, visits, start, v, i, j - 1);
      SeenMember(visits, v, j - 1);
    }
  }

  lemma EvenMultiple(r: nat, align: nat)
    requires align > 0 && align % 2 == 0 && r % align == 0
    ensures r % 2 == 0
  {
    var q, h := r / align, align / 2;
    assert r == align * q && align == 2 * h;
    assert r == 2 * (h * q);
  }

  lemma EvenBehindHeader(x: nat)
    requires x % 2 == 0
    ensures (x + HEADER_SIZE) % 2 == 0
  {
  }

  lemma AlignedIsEven(isa: Isa, x: nat)
    requires ValidIsa(isa)
    ensures x <= RoundUp(x, isa.align) && RoundUp(x, isa.align) % 2 == 0
  {
    EvenMultiple(RoundUp(x, isa.align), isa.align);
  }

  lemma CodeEndGrows(mem: Memory, isa: Isa, visits: seq<Visit>, start: nat, i: nat)
    requires isa.align > 0 && i < |visits|
    ensures CodeEnd(mem, isa, visits, start, i) <= CodeEnd(mem, isa, visits, start, i + 1)
    ensures visits[i].Quick? && FreshCode(visits, i) ==>
              RoundUp(CodeEnd(mem, isa, visits, start, i), isa.align) + HEADER_SIZE + |mem(visits[i].key.code)|
              == CodeEnd(mem, isa, visits, start, i + 1)
  {
  }

  lemma {:induction false} CodeEndAbove(mem: Memory, isa: Isa, visits: seq<Visit>, start: nat, i: nat)
    requires isa.align > 0 && i <= |visits|
    ensures start <= CodeEnd(mem, isa, visits, start, i)
  {
    if i > 0 {
      CodeEndAbove(mem, isa, visits, start, i - 1);
      CodeEndGrows(mem, isa, visits, start, i - 1);
    }
  }

  /** Visited code lies after the start and below the current end. */
  lemma {:induction false} CodePlaceBelow(mem: Memory, isa: Isa, visits: seq<Visit>, start: nat, v: Visit, i: nat)
    requires ValidIsa(isa) && i <= |visits| && v in visits[..i] && v.Quick?
    ensures start + HEADER_SIZE <= CodePlace(mem, isa, visits, start, v, i)
    ensures CodePlace(mem, isa, visits, start, v, i) + |mem(v.key.code)| <= CodeEnd(mem, isa, visits, start, i)
  {
    SeenMember(visits, v, i - 1);
    if v in visits[..i - 1] {
      CodePlaceBelow(mem, isa, visits, start, v, i - 1);
      CodeEndGrows(mem, isa, visits, start, i - 1);
    } else {
      NewPlaceBelow(mem, isa, visits, start, i - 1);
    }
  }

  lemma NewPlaceBelow(mem: Memory, isa: Isa, visits: seq<Visit>, start: nat, i: nat)
    requires isa.align > 0 && i < |visits| && visits[i].Quick? && visits[i] !in visits[..i]
    ensures var place := RoundUp(CodeEnd(mem, isa, visits, start, i), isa.align) + HEADER_SIZE;
            start + HEADER_SIZE <= place && place + |mem(visits[i].key.code)| <= CodeEnd(mem, isa, visits, start, i + 1)
  {
    CodeEndAbove(mem, isa, visits, start, i);
    CodeEndGrows(mem, isa, visits, start, i);
  }

  /** Code starts at an even offset. */
  lemma {:induction false} CodePlaceEven(mem: Memory, isa: Isa, visits: seq<Visit>, start: nat, v: Visit, i: nat)
    requires ValidIsa(isa) && i <= |visits| && v in visits[..i]
    ensures CodePlace(mem, isa, visits, start, v, i) % 2 == 0
  {
    if v in visits[..i - 1] {
      CodePlaceEven(mem, isa, visits, start, v, i - 1);
    } else {
      var aligned := RoundUp(CodeEnd(mem, isa, visits, start, i - 1), isa.align);
      assert aligned % 2 == 0 by {
        AlignedIsEven(isa, CodeEnd(mem, isa, visits, start, i - 1));
      }
      EvenBehindHeader(aligned);
    }
  }

  /** Headers are aligned. */
  lemma {:induction false} HeaderAligned(mem: Memory, isa: Isa, visits: seq<Visit>, start: nat, v: Visit, i: nat)
    requires i <= |visits| && isa.align > 0 && v in visits[..i]
    ensures CodePlace(mem, isa, visits, start, v, i) >= HEADER_SIZE
    ensures (CodePlace(mem, isa, visits, start, v, i) - HEADER_SIZE) % isa.align == 0
  {
    if v in visits[..i - 1] {
      HeaderAligned(mem, isa, visits, start, v, i - 1);
    }
  }

  /** The test of the write pass finds exactly the first occurrences. Even alignment and header
      size matter: they keep one byte of thumb code apart from the next position. */
  lemma {:induction false} FirstByCodeOffset(mem: Memory, isa: Isa, visits: seq<Visit>, start: nat, i: nat)
    requires ValidIsa(isa) && i < |visits| && visits[i].Quick? && mem(visits[i].key.code) != []
    ensures CodeOffset(mem, isa, visits, start, i) >= RoundUp(CodeEnd(mem, isa, visits, start, i), isa.align)
       <==> FreshCode(visits, i)
    ensures FreshCode(visits, i) ==>
              CodeOffset(mem, isa, visits, start, i)
              == RoundUp(CodeEnd(mem, isa, visits, start, i), isa.align) + HEADER_SIZE + isa.thumb
  {
    SeenMember(visits, visits[i], i);
    var end := CodeEnd(mem, isa, visits, start, i);
    AlignedIsEven(isa, end);
    if !FreshCode(visits, i) {
      CodePlaceBelow(mem, isa, visits, start, visits[i], i);
      CodePlaceEven(mem, isa, visits, start, visits[i], i);
      EvenGap(CodePlace(mem, isa, visits, start, visits[i], i), |mem(visits[i].key.code)|,
              RoundUp(end, isa.align), isa.thumb);
    }
  }

  lemma EvenGap(place: nat, size: nat, position: nat, thumb: nat)
    requires place % 2 == 0 && position % 2 == 0 && size > 0 && place + size <= position && thumb <= 1
    ensures place + thumb < position
  {
  }

  /** With an odd alignment the test can take a duplicate for a first occurrence. */
  lemma OddAlignmentMisleads()
    ensures var mem: Memory := (_) => [0x42];
            var visits := [Quick(Key(1, 2, 3, 4)), Quick(Key(1, 2, 3, 4))];
            CodeOffset(mem, Isa(1, 1), visits, 0, 1) >= RoundUp(CodeEnd(mem, Isa(1, 1), visits, 0, 1), 1) &&
            !FreshCode(visits, 1)
  {
    var mem: Memory := (_) => [0x42];
    var v := Quick(Key(1, 2, 3, 4));
    var visits := [v, v];
    assert visits[..1] == [v] && visits[..2] == [v, v] && visits[..0] == [];
    assert FreshCode(visits, 0);
    assert CodeEnd(mem, Isa(1, 1), visits, 0, 1) == RoundUp(0, 1) + HEADER_SIZE + 1;
    assert CodePlace(mem, Isa(1, 1), visits, 0, v, 1) == RoundUp(0, 1) + HEADER_SIZE;
    assert CodePlace(mem, Isa(1, 1), visits, 0, v, 2) == CodePlace(mem, Isa(1, 1), visits, 0, v, 1);
  }

  // ----- the init pass -----

  ghost predicate CodeDedupeOk(mem: Memory, isa: Isa, visits: seq<Visit>, start: nat, i: nat, dedupe: map<Key, nat>)
    requires i <= |visits| && isa.align > 0
  {
    && (forall k :: k in dedupe <==> Quick(k) in visits[..i])
    && (forall k | k in dedupe ::
          Quick(k) in visits[..i] &&
          dedupe[k] == CodePlace(mem, isa, visits, start, Quick(k), i) + isa.thumb)
  }

  /** Gives every visit its code offset. */
  method InitCode(mem: Memory, isa: Isa, visits: seq<Visit>, start: nat) returns (offsets: seq<nat>, end: nat)
    requires ValidIsa(isa)
    ensures |offsets| == |visits|
    ensures forall i | 0 <= i < |visits| :: offsets[i] == CodeOffset(mem, isa, visits, start, i)
    ensures end == CodeEnd(mem, isa, visits, start, |visits|)
  {
    offsets, end := [], start;
    var dedupe: map<Key, nat> := map[];
    for i := 0 to |visits|
      invariant |offsets| == i
      invariant forall j | 0 <= j < i :: offsets[j] == CodeOffset(mem, isa, visits, start, j)
      invariant end == CodeEnd(mem, isa, visits, start, i)
      invariant CodeDedupeOk(mem, isa, visits, start, i, dedupe)
    {
      var offset: nat;
      offset, end, dedupe := InitCodeVisit(mem, isa, visits, start, i, end, dedupe);
      offsets := offsets + [offset];
    }
  }

  /** One visit: the position is aligned even when the code turns out to be a duplicate. */
  method InitCodeVisit(mem: Memory, isa: Isa, visits: seq<Visit>, ghost start: nat, i: nat, end: nat,
                       dedupe: map<Key, nat>)
    returns (offset: nat, end': nat, dedupe': map<Key, nat>)
    requires ValidIsa(isa) && i < |visits| && CodeDedupeOk(mem, isa, visits, start, i, dedupe)
    requires end == CodeEnd(mem, isa, visits, start, i)
    ensures offset == CodeOffset(mem, isa, visits, start, i)
    ensures end' == CodeEnd(mem, isa, visits, start, i + 1)
    ensures CodeDedupeOk(mem, isa, visits, start, i + 1, dedupe')
  {
    forall v ensures v in visits[..i + 1] <==> v in visits[..i] || v == visits[i] {
      SeenMember(visits, v, i);
    }
    offset, end', dedupe' := 0, end, dedupe;
    if visits[i].Quick? {
      var key := visits[i].key;
      end' := RoundUp(end, isa.align);
      offset := end' + HEADER_SIZE + isa.thumb;
      if key in dedupe {
        offset := dedupe[key];
      } else {
        dedupe' := dedupe[key := offset];
        end' := end' + HEADER_SIZE + |mem(key.code)|;
      }
    }
  }

  // ----- the write pass -----

  /** The header written for `v`: that of its first visit. */
  function FirstHeader(visits: seq<Visit>, headers: seq<MethodHeader>, v: Visit, i: nat): MethodHeader
    requires i <= |visits| && |headers| == |visits| && v in visits[..i]
  {
    if v in visits[..i - 1] then FirstHeader(visits, headers, v, i - 1) else headers[i - 1]
  }

  /** Header and code of `v` stand at its place. */
  ghost predicate CodePlaced(contents: seq<Byte>, base: nat, mem: Memory, isa: Isa, visits: seq<Visit>,
                             headers: seq<MethodHeader>, start: nat, v: Visit, i: nat)
    requires i <= |visits| && |headers| == |visits| && ValidIsa(isa) && v in visits[..i] && v.Quick?
  {
    CodePlaceBelow(mem, isa, visits, start, v, i);
    var place := CodePlace(mem, isa, visits, start, v, i);
    && Placed(contents, base + place - HEADER_SIZE, HeaderBytes(FirstHeader(visits, headers, v, i)))
    && Placed(contents, base + place, mem(v.key.code))
  }

  ghost predicate CodeWritten(contents: seq<Byte>, base: nat, mem: Memory, isa: Isa, visits: seq<Visit>,
                              headers: seq<MethodHeader>, start: nat, i: nat)
    requires i <= |visits| && |headers| == |visits| && ValidIsa(isa)
  {
    forall v | v in visits[..i] && v.Quick? :: CodePlaced(contents, base, mem, isa, visits, headers, start, v, i)
  }

  /** Header and code of a visit stand at the next aligned place after `end`. */
  ghost predicate VisitWritten(contents: seq<Byte>, base: nat, mem: Memory, isa: Isa, v: Visit, header: MethodHeader,
                               end: nat)
    requires isa.align > 0
  {
    v.Quick? ==>
      && Placed(contents, base + RoundUp(end, isa.align), HeaderBytes(header))
      && Placed(contents, base + RoundUp(end, isa.align) + HEADER_SIZE, mem(v.key.code))
  }

  /** Writes padding, and header and code of every visit whose code offset is not behind. */
  method WriteCode(out: BufferedOutputStream, ghost base: nat, mem: Memory, isa: Isa, visits: seq<Visit>,
                   headers: seq<MethodHeader>, offsets: seq<nat>, start: nat)
    returns (end: nat, sizes: CodeSizes)
    requires ValidIsa(isa) && CodeOk(mem, visits) && |headers| == |visits| == |offsets|
    requires forall i | 0 <= i < |visits| :: offsets[i] == CodeOffset(mem, isa, visits, start, i)
    requires out.pos == base + start
    requires out.Valid()
    modifies out, out.buffer, out.sink
    ensures out.Valid()
    ensures end == CodeEnd(mem, isa, visits, start, |visits|) && out.pos == base + end
    ensures CodeWritten(out.contents, base, mem, isa, visits, headers, start, |visits|)
    ensures SameOutside(old(out.contents), out.contents, base + start, base + end)
    ensures start + sizes.alignment + sizes.header + sizes.code == end
  {
    end, sizes := start, CodeSizes(0, 0, 0);
    for i := 0 to |visits|
      invariant out.Valid()
      invariant end == CodeEnd(mem, isa, visits, start, i) && out.pos == base + end && start <= end
      invariant CodeWritten(out.contents, base, mem, isa, visits, headers, start, i)
      invariant SameOutside(old(out.contents), out.contents, base + start, base + end)
      invariant start + sizes.alignment + sizes.header + sizes.code == end
    {
      ghost var before, from := out.contents, end;
      var more;
      end, more := WriteCodeVisit(out, base, mem, isa, visits, headers[i], offsets[i], start, i, end);
      sizes := MoreSizes(sizes, more);
      CodeWrittenStep(before, out.contents, base, mem, isa, visits, headers, start, i);
      SameOutsideThen(old(out.contents), before, out.contents, base + start, base + from, base + end);
    }
  }

  /** The counters `size_code_alignment_`, `size_method_header_` and `size_code_`. */
  datatype CodeSizes = CodeSizes(alignment: nat, header: nat, code: nat)

  function MoreSizes(a: CodeSizes, b: CodeSizes): CodeSizes {
    CodeSizes(a.alignment + b.alignment, a.header + b.header, a.code + b.code)
  }

  method WriteCodeVisit(out: BufferedOutputStream, ghost base: nat, mem: Memory, isa: Isa, visits: seq<Visit>,
                        header: MethodHeader, offset: nat, ghost start: nat, i: nat, end: nat)
    returns (end': nat, sizes: CodeSizes)
    requires ValidIsa(isa) && CodeOk(mem, visits) && i < |visits|
    requires offset == CodeOffset(mem, isa, visits, start, i)
    requires end == CodeEnd(mem, isa, visits, start, i) && out.pos == base + end
    requires out.Valid()
    modifies out, out.buffer, out.sink
    ensures out.Valid()
    ensures end' == CodeEnd(mem, isa, visits, start, i + 1) && out.pos == base + end' && end <= end'
    ensures SameOutside(old(out.contents), out.contents, base + end, base + end')
    ensures FreshCode(visits, i) ==> VisitWritten(out.contents, base, mem, isa, visits[i], header, end)
    ensures end + sizes.alignment + sizes.header + sizes.code == end'
  {
    end', sizes := end, CodeSizes(0, 0, 0);
    if visits[i].Quick? {
      assert visits[i] in visits;
      FirstByCodeOffset(mem, isa, visits, start, i);
      var aligned := RoundUp(end, isa.align);
      var code := mem(visits[i].key.code);
      sizes := sizes.(alignment := aligned - end);
      WritePadding(out, aligned - end);
      end' := aligned;
      if offset >= aligned {
        WritePair(out, HeaderBytes(header), code);
        sizes := sizes.(header := HEADER_SIZE, code := |code|);
        end' := end' + HEADER_SIZE + |code|;
      }
    }
  }

  /** Writes two pieces one after the other. */
  /** Writes zeros up to an aligned position, if it is not there already. */
  method WritePadding(out: BufferedOutputStream, padding: nat)
    requires out.Valid()
    modifies out, out.buffer, out.sink
    ensures out.Valid() && out.pos == old(out.pos) + padding
    ensures SameOutside(old(out.contents), out.contents, old(out.pos), out.pos)
  {
    if padding != 0 {
      OverwritePlaces(out.contents, out.pos, Zeros(padding));
      out.WriteFully(Zeros(padding));
    }
  }

  method WritePair(out: BufferedOutputStream, a: seq<Byte>, b: seq<Byte>)
    requires out.Valid()
    modifies out, out.buffer, out.sink
    ensures out.Valid()
    ensures out.pos == old(out.pos) + |a| + |b|
    ensures Placed(out.contents, old(out.pos), a) && Placed(out.contents, old(out.pos) + |a|, b)
    ensures SameOutside(old(out.contents), out.contents, old(out.pos), out.pos)
  {
    OverwritePlaces(out.contents, out.pos, a);
    out.WriteFully(a);
    ghost var mid := out.contents;
    OverwritePlaces(out.contents, out.pos, b);
    out.WriteFully(b);
    PlacedStays(mid, out.contents, old(out.pos) + |a|, out.pos, old(out.pos), a);
    SameOutsideThen(old(out.contents), mid, out.contents, old(out.pos), old(out.pos) + |a|, out.pos);
  }

  lemma CodeWrittenStep(before: seq<Byte>, after: seq<Byte>, base: nat, mem: Memory, isa: Isa, visits: seq<Visit>,
                        headers: seq<MethodHeader>, start: nat, i: nat)
    requires ValidIsa(isa) && |headers| == |visits| && i < |visits|
    requires CodeWritten(before, base, mem, isa, visits, headers, start, i)
    requires SameOutside(before, after, base + CodeEnd(mem, isa, visits, start, i),
                         base + CodeEnd(mem, isa, visits, start, i + 1))
    requires FreshCode(visits, i) ==>
               VisitWritten(after, base, mem, isa, visits[i], headers[i], CodeEnd(mem, isa, visits, start, i))
    ensures CodeWritten(after, base, mem, isa, visits, headers, start, i + 1)
  {
    forall v | v in visits[..i + 1] && v.Quick?
      ensures CodePlaced(after, base, mem, isa, visits, headers, start, v, i + 1)
    {
      SeenMember(visits, v, i);
      if v in visits[..i] {
        assert CodePlaced(before, base, mem, isa, visits, headers, start, v, i);
        CodeStaysPlaced(before, after, base, mem, isa, visits, headers, start, i, v);
      } else {
        NewCodePlaced(after, base, mem, isa, visits, headers, start, i);
      }
    }
  }

  lemma {:induction false} NewCodePlaced(contents: seq<Byte>, base: nat, mem: Memory, isa: Isa, visits: seq<Visit>,
                                         headers: seq<MethodHeader>, start: nat, i: nat)
    requires ValidIsa(isa) && |headers| == |visits| && i < |visits|
    requires visits[i].Quick? && visits[i] in visits[..i + 1] && visits[i] !in visits[..i]
    requires VisitWritten(contents, base, mem, isa, visits[i], headers[i], CodeEnd(mem, isa, visits, start, i))
    ensures CodePlaced(contents, base, mem, isa, visits, headers, start, visits[i], i + 1)
  {
  }

  lemma CodeStaysPlaced(before: seq<Byte>, after: seq<Byte>, base: nat, mem: Memory, isa: Isa, visits: seq<Visit>,
                        headers: seq<MethodHeader>, start: nat, i: nat, v: Visit)
    requires ValidIsa(isa) && |headers| == |visits| && i < |visits|
    requires v in visits[..i] && v in visits[..i + 1] && v.Quick?
    requires CodePlaced(before, base, mem, isa, visits, headers, start, v, i)
    requires SameOutside(before, after, base + CodeEnd(mem, isa, visits, start, i),
                         base + CodeEnd(mem, isa, visits, start, i + 1))
    ensures CodePlaced(after, base, mem, isa, visits, headers, start, v, i + 1)
  {
    CodePlaceBelow(mem, isa, visits, start, v, i);
    var from, to := base + CodeEnd(mem, isa, visits, start, i), base + CodeEnd(mem, isa, visits, start, i + 1);
    var place := CodePlace(mem, isa, visits, start, v, i);
    PlacedStays(before, after, from, to, base + place - HEADER_SIZE,
                HeaderBytes(FirstHeader(visits, headers, v, i)));
    PlacedStays(before, after, from, to, base + place, mem(v.key.code));
  }
}
