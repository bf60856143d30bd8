/**
 The GC map of a compiled method: an open-addressed hash table from native code offsets to reference
 bitmaps, written byte by byte. The hash function is a parameter; builder and reader use the same.
 */
module GcMap {
  import opened Bits
  import opened Bytes
  import opened LittleEndian
  import opened Streams

  // ----- keys of variable width -----

  /** The number of leading zeros of a 32-bit word. */
  function Clz(x: Word32): (n: int) {
    32 - BitLength(x)
  }

  /** The number of bytes that encode a native offset. */
  function KeyWidth(entries: nat, maxOffset: Word32): int {
    if entries != 0 && maxOffset != 0 then 4 - Clz(maxOffset) / 8 else 0
  }

  /** It is the least number of bytes that holds every offset up to the maximum. */
  lemma KeyWidthFits(entries: nat, maxOffset: Word32)
    ensures 0 <= KeyWidth(entries, maxOffset) <= 4
    ensures entries > 0 ==> maxOffset < Pow256(KeyWidth(entries, maxOffset))
    ensures entries > 0 && maxOffset > 0 ==>
              KeyWidth(entries, maxOffset) > 0 && maxOffset >= Pow256(KeyWidth(entries, maxOffset) - 1)
  {
    if entries > 0 && maxOffset > 0 {
      var bits := BitLength(maxOffset);
      BitLengthBound(maxOffset, 32);
      Pow256IsPow2(4);
      assert Pow256(4) == TWO32;
      var width := KeyWidth(entries, maxOffset);
      assert 8 * (width - 1) < bits <= 8 * width;
      BitLengthBound(maxOffset, 8 * width);
      BitLengthBound(maxOffset, 8 * width - 8);
      Pow256IsPow2(width);
      Pow256IsPow2(width - 1);
    }
  }

  // ----- the header -----

  function HeaderBytes(width: nat, references: nat, entries: nat): (bytes: seq<Byte>)
    ensures |bytes| == 4
  {
    [width % 8 + references * 8 % 0x100, references / 32 % 0x100, entries % 0x100, entries / 0x100 % 0x100]
  }

  function ReadWidth(data: seq<Byte>): nat
    requires |data| >= 4
  {
    data[0] as int % 8
  }

  function ReadReferences(data: seq<Byte>): nat
    requires |data| >= 4
  {
    (data[0] as int + data[1] as int * 0x100) / 8
  }

  function ReadEntries(data: seq<Byte>): nat
    requires |data| >= 4
  {
    data[2] as int + data[3] as int * 0x100
  }

  ghost predicate ReadsBack(data: seq<Byte>, width: nat, references: nat, entries: nat) {
    |data| >= 4 && ReadWidth(data) == width && ReadReferences(data) == references && ReadEntries(data) == entries
  }

  lemma WidthReads(width: nat, references: nat)
    ensures (width % 8 + references * 8 % 0x100) % 8 == width <==> width < 8
  {
    assert references * 8 % 0x100 == 8 * (references % 32);
  }

  lemma ReferencesRead(width: nat, references: nat)
    requires width < 8
    ensures (width + references * 8 % 0x100 + references / 32 % 0x100 * 0x100) / 8 == references <==> references < 0x2000
  {
    assert references * 8 % 0x100 == 8 * (references % 32);
    PartsOfReferences(width, references % 32, references / 32 % 0x100);
  }

  lemma PartsOfReferences(width: nat, low: nat, high: nat)
    requires width < 8
    ensures (width + 8 * low + high * 0x100) / 8 == low + 32 * high
  {
  }

  lemma EntriesRead(entries: nat)
    ensures entries % 0x100 + entries / 0x100 % 0x100 * 0x100 == entries <==> entries < 0x10000
  {
  }

  /** The reader gets the three numbers back if and only if they pass the builder's checks. */
  lemma HeaderRoundTrip(width: nat, references: nat, entries: nat)
    ensures ReadsBack(HeaderBytes(width, references, entries), width, references, entries)
       <==> width < 8 && references < 0x2000 && entries < 0x10000
  {
    WidthReads(width, references);
    EntriesRead(entries);
    if width < 8 {
      ReferencesRead(width, references);
    }
  }

  // ----- probing -----

  datatype Slot = Free | Used(offset: Word32, references: seq<Byte>)

  type Hash = Word32 -> Word32

  function Home(hash: Hash, offset: Word32, n: nat): (i: nat)
    requires n > 0
    ensures i < n
  {
    hash(offset) % n
  }

  /** The slot `d` steps after slot `i`, going round. */
  function After(i: nat, d: nat, n: nat): (k: nat)
    requires i < n && d < n
    ensures k < n
  {
    if i + d < n then i + d else i + d - n
  }

  /** The steps from slot `i` to slot `k`. */
  function Steps(i: nat, k: nat, n: nat): (d: nat)
    requires i < n && k < n
    ensures d < n && After(i, d, n) == k
  {
    if i <= k then k - i else k + n - i
  }

  lemma StepsUnique(i: nat, d: nat, n: nat)
    requires i < n && d < n
    ensures Steps(i, After(i, d, n), n) == d
  {
  }

  lemma NextSlot(i: nat, d: nat, n: nat)
    requires i < n && d + 1 < n
    ensures (After(i, d, n) + 1) % n == After(i, d + 1, n)
  {
    if After(i, d, n) + 1 < n {
      assert (After(i, d, n) + 1) % n == After(i, d, n) + 1;
    }
  }

  /** All slots on the way from `home` to `k` are used. */
  ghost predicate Reaches(slots: seq<Slot>, home: nat, k: nat)
    requires home < |slots| && k < |slots|
  {
    forall d {:trigger After(home, d, |slots|)} | 0 <= d < Steps(home, k, |slots|) ::
      slots[After(home, d, |slots|)].Used?
  }

  /** A used slot is reached from the home of its offset. */
  ghost predicate Reachable(hash: Hash, slots: seq<Slot>, k: nat)
    requires k < |slots|
  {
    slots[k].Used? ==> Reaches(slots, Home(hash, slots[k].offset, |slots|), k)
  }

  ghost predicate Holds(slots: seq<Slot>, k: nat, offset: Word32) {
    k < |slots| && slots[k].Used? && slots[k].offset == offset
  }

  ghost predicate SlotsOk(hash: Hash, slots: seq<Slot>) {
    && (forall k {:trigger Reachable(hash, slots, k)} | 0 <= k < |slots| :: Reachable(hash, slots, k))
    && (forall j, k {:trigger Same(slots, j, k)} | 0 <= j < |slots| && 0 <= k < |slots| :: Same(slots, j, k))
  }

  /** Two used slots with the same offset are the same slot. */
  ghost predicate Same(slots: seq<Slot>, j: nat, k: nat)
    requires j < |slots| && k < |slots|
  {
    slots[j].Used? && slots[k].Used? && slots[j].offset == slots[k].offset ==> j == k
  }

  ghost predicate Fresh(slots: seq<Slot>, offset: Word32) {
    forall k {:trigger slots[k]} | 0 <= k < |slots| && slots[k].Used? :: slots[k].offset != offset
  }

  lemma FilledReaches(slots: seq<Slot>, more: seq<Slot>, home: nat, k: nat)
    requires |more| == |slots| && home < |slots| && k < |slots| && Reaches(slots, home, k)
    requires forall j {:trigger more[j]} | 0 <= j < |slots| && slots[j].Used? :: more[j].Used?
    ensures Reaches(more, home, k)
  {
    forall d | 0 <= d < Steps(home, k, |slots|) ensures more[After(home, d, |slots|)].Used? {
      assert slots[After(home, d, |slots|)].Used?;
    }
  }

  /** Filling the first free slot after the home keeps every entry reachable. */
  lemma InsertKeeps(hash: Hash, slots: seq<Slot>, k: nat, offset: Word32, references: seq<Byte>)
    requires SlotsOk(hash, slots) && k < |slots| && slots[k].Free? && Fresh(slots, offset)
    requires Reaches(slots, Home(hash, offset, |slots|), k)
    ensures SlotsOk(hash, slots[k := Used(offset, references)])
  {
    var more := slots[k := Used(offset, references)];
    forall j | 0 <= j < |more| ensures Reachable(hash, more, j) {
      if j == k {
        FilledReaches(slots, more, Home(hash, offset, |slots|), k);
      } else if slots[j].Used? {
        assert Reachable(hash, slots, j);
        FilledReaches(slots, more, Home(hash, slots[j].offset, |slots|), j);
      }
    }
    forall i, j | 0 <= i < |more| && 0 <= j < |more| ensures Same(more, i, j) {
      assert Same(slots, i, j);
    }
  }

  // ----- counting -----

  ghost function UsedCount(slots: seq<Slot>): (n: nat)
    ensures n <= |slots|
  {
    if slots == [] then 0 else UsedCount(slots[1..]) + if slots[0].Used? then 1 else 0
  }

  lemma {:induction false} FindFree(slots: seq<Slot>) returns (k: nat)
    requires UsedCount(slots) < |slots|
    ensures k < |slots| && slots[k].Free?
  {
    if slots[0].Free? {
      k := 0;
    } else {
      k := FindFree(slots[1..]);
      k := k + 1;
    }
  }

  lemma {:induction false} UsedMore(slots: seq<Slot>, k: nat, slot: Slot)
    requires k < |slots| && slots[k].Free? && slot.Used?
    ensures UsedCount(slots[k := slot]) == UsedCount(slots) + 1
  {
    if k > 0 {
      assert slots[k := slot][1..] == slots[1..][k - 1 := slot];
      UsedMore(slots[1..], k - 1, slot);
    } else {
      assert slots[k := slot][1..] == slots[1..];
    }
  }

  lemma {:induction false} NoneUsed(slots: seq<Slot>)
    requires forall k {:trigger slots[k]} | 0 <= k < |slots| :: slots[k].Free?
    ensures UsedCount(slots) == 0
  {
    if slots != [] {
      NoneUsed(slots[1..]);
    }
  }

  // ----- bytes of the table -----

  /** Where entry `k` starts. */
  function EntryAt(k: nat, width: nat): (at: nat)
    ensures at >= 4
  {
    if k == 0 then 4 else EntryAt(k - 1, width) + width
  }

  lemma {:induction false} EntryAtIsProduct(k: nat, width: nat)
    ensures EntryAt(k, width) == k * width + 4
  {
    if k > 0 {
      EntryAtIsProduct(k - 1, width);
      assert k * width == (k - 1) * width + width;
    }
  }

  lemma {:induction false} EntriesApart(j: nat, k: nat, width: nat)
    requires j < k
    ensures EntryAt(j, width) + width <= EntryAt(k, width)
    decreases k
  {
    if j < k - 1 {
      EntriesApart(j, k - 1, width);
    }
  }

  /** The bytes of an entry: key, then references. */
  ghost predicate EntryPlaced(table: seq<Byte>, width: nat, references: nat, k: nat, slot: Slot) {
    slot.Used? ==>
      && Placed(table, EntryAt(k, width + references), NumberBytes(slot.offset, width))
      && Placed(table, EntryAt(k, width + references) + width, slot.references)
      && slot.offset < Pow256(width) && |slot.references| == references
  }

  ghost predicate Encodes(table: seq<Byte>, width: nat, references: nat, slots: seq<Slot>) {
    && |table| == EntryAt(|slots|, width + references) && ReadsBack(table, width, references, |slots|)
    && forall k {:trigger EntryPlaced(table, width, references, k, slots[k])} | 0 <= k < |slots| ::
         EntryPlaced(table, width, references, k, slots[k])
  }

  /** Writing entry `k` leaves the other entries alone. */
  lemma EntryStays(before: seq<Byte>, after: seq<Byte>, width: nat, references: nat, j: nat, k: nat, slot: Slot)
    requires j != k && EntryPlaced(before, width, references, j, slot)
    requires SameOutside(before, after, EntryAt(k, width + references), EntryAt(k, width + references) + width + references)
    ensures EntryPlaced(after, width, references, j, slot)
  {
    if slot.Used? {
      var entry := width + references;
      if j < k {
        EntriesApart(j, k, entry);
      } else {
        EntriesApart(k, j, entry);
      }
      PlacedStays(before, after, EntryAt(k, entry), EntryAt(k, entry) + width + references, EntryAt(j, entry),
                  NumberBytes(slot.offset, width));
      PlacedStays(before, after, EntryAt(k, entry), EntryAt(k, entry) + width + references, EntryAt(j, entry) + width,
                  slot.references);
    }
  }

  lemma HeaderLeads(header: seq<Byte>, rest: seq<Byte>, width: nat, references: nat, entries: nat)
    requires ReadsBack(header, width, references, entries)
    ensures ReadsBack(header + rest, width, references, entries)
  {
  }

  lemma HeaderStays(before: seq<Byte>, after: seq<Byte>, from: nat, to: nat, width: nat, references: nat, entries: nat)
    requires ReadsBack(before, width, references, entries) && |after| == |before| && from >= 4
    requires SameOutside(before, after, from, to)
    ensures ReadsBack(after, width, references, entries)
  {
    assert At(after, 0) == At(before, 0) && At(after, 1) == At(before, 1);
    assert At(after, 2) == At(before, 2) && At(after, 3) == At(before, 3);
  }

  lemma {:induction false} EncodesMore(before: seq<Byte>, after: seq<Byte>, width: nat, references: nat,
                                       slots: seq<Slot>, k: nat, slot: Slot)
    requires Encodes(before, width, references, slots) && k < |slots| && |after| == |before|
    requires EntryPlaced(after, width, references, k, slot)
    requires SameOutside(before, after, EntryAt(k, width + references), EntryAt(k, width + references) + width + references)
    ensures Encodes(after, width, references, slots[k := slot])
  {
    var more, start := slots[k := slot], EntryAt(k, width + references);
    HeaderStays(before, after, start, start + width + references, width, references, |slots|);
    forall j | 0 <= j < |slots| ensures EntryPlaced(after, width, references, j, more[j]) {
      if j != k {
        assert EntryPlaced(before, width, references, j, slots[j]);
        EntryStays(before, after, width, references, j, k, slots[j]);
      }
    }
  }

  // ----- the builder -----

  /** A vector resized to `n` bytes. */
  function Resized(table: seq<Byte>, n: nat): (r: seq<Byte>)
    ensures |r| == n
  {
    if n <= |table| then table[..n] else table + Zeros(n - |table|)
  }

  class GcMapBuilder {
    const hash: Hash
    const entries: nat
    const referencesWidth: nat
    const nativeOffsetWidth: nat
    var inUse: seq<bool>
    var table: seq<Byte>
    ghost var slots: seq<Slot>

    ghost predicate Valid()
      reads this
    {
      && |slots| == entries && |inUse| == entries
      && (forall k {:trigger inUse[k]} | 0 <= k < entries :: inUse[k] <==> slots[k].Used?)
      && SlotsOk(hash, slots) && Encodes(table, nativeOffsetWidth, referencesWidth, slots)
    }

    /** Resizes the table and writes the header. The checks of the source are the last two
        preconditions; the width of the offsets always passes its check. */
    constructor (hash: Hash, initial: seq<Byte>, entries: nat, maxOffset: Word32, referencesWidth: nat)
      requires entries != 0 ==> referencesWidth < 0x2000
      requires entries < 0x10000
      ensures Valid() && this.hash == hash && this.entries == entries && UsedCount(slots) == 0
      ensures this.referencesWidth == if entries != 0 then referencesWidth else 0
      ensures nativeOffsetWidth == KeyWidth(entries, maxOffset)
      ensures forall k {:trigger slots[k]} | 0 <= k < |slots| :: slots[k].Free?
    {
      KeyWidthFits(entries, maxOffset);
      var bitmap, key := if entries != 0 then referencesWidth else 0, KeyWidth(entries, maxOffset);
      this.hash, this.entries, this.referencesWidth, nativeOffsetWidth := hash, entries, bitmap, key;
      inUse := seq(entries, k => false);
      slots := seq(entries, k => Free);
      EntryAtIsProduct(entries, key + bitmap);
      var resized := Resized(initial, entries * (key + bitmap) + 4);
      table := HeaderBytes(key, bitmap, entries) + resized[4..];
      HeaderRoundTrip(key, bitmap, entries);
      HeaderLeads(HeaderBytes(key, bitmap, entries), resized[4..], key, bitmap, entries);
      new;
      NoneUsed(slots);
      forall k | 0 <= k < |slots| ensures EntryPlaced(table, nativeOffsetWidth, referencesWidth, k, slots[k]) {
      }
    }

    function EntryWidth(): nat {
      nativeOffsetWidth + referencesWidth
    }

    /** `SetCodeOffset`: the bytes of the key, one by one. */
    method SetCodeOffset(k: nat, offset: Word32)
      requires k < entries && |table| == EntryAt(entries, EntryWidth())
      modifies `table
      ensures |table| == |old(table)|
      ensures Placed(table, EntryAt(k, EntryWidth()), NumberBytes(offset, nativeOffsetWidth))
      ensures SameOutside(old(table), table, EntryAt(k, EntryWidth()), EntryAt(k, EntryWidth()) + nativeOffsetWidth)
    {
      var start := k * EntryWidth() + 4;
      EntryAtIsProduct(k, EntryWidth());
      EntriesApart(k, entries, EntryWidth());
      for i := 0 to nativeOffsetWidth
        invariant |table| == |old(table)|
        invariant Placed(table, start, NumberBytes(offset, nativeOffsetWidth)[..i])
        invariant SameOutside(old(table), table, start, start + nativeOffsetWidth)
      {
        table := table[start + i := ByteAt(offset, i)];
      }
      assert NumberBytes(offset, nativeOffsetWidth)[..nativeOffsetWidth] == NumberBytes(offset, nativeOffsetWidth);
    }

    /** `SetReferences`: the bitmap, behind the key. */
    method SetReferences(k: nat, references: seq<Byte>)
      requires k < entries && |table| == EntryAt(entries, EntryWidth()) && |references| == referencesWidth
      modifies `table
      ensures |table| == |old(table)|
      ensures Placed(table, EntryAt(k, EntryWidth()) + nativeOffsetWidth, references)
      ensures SameOutside(old(table), table, EntryAt(k, EntryWidth()) + nativeOffsetWidth,
                          EntryAt(k, EntryWidth()) + nativeOffsetWidth + referencesWidth)
    {
      var start := k * EntryWidth() + 4 + nativeOffsetWidth;
      EntryAtIsProduct(k, EntryWidth());
      EntriesApart(k, entries, EntryWidth());
      table := table[..start] + references + table[start + referencesWidth..];
    }

    /** Both parts of an entry. */
    method WriteEntry(k: nat, offset: Word32, references: seq<Byte>)
      requires k < entries && |table| == EntryAt(entries, EntryWidth()) && |references| == referencesWidth
      requires offset < Pow256(nativeOffsetWidth)
      modifies `table
      ensures |table| == |old(table)|
      ensures EntryPlaced(table, nativeOffsetWidth, referencesWidth, k, Used(offset, references))
      ensures SameOutside(old(table), table, EntryAt(k, EntryWidth()),
                          EntryAt(k, EntryWidth()) + nativeOffsetWidth + referencesWidth)
    {
      SetCodeOffset(k, offset);
      ghost var keyed := table;
      SetReferences(k, references);
      ghost var start := EntryAt(k, EntryWidth());
      ghost var mid := start + nativeOffsetWidth;
      SameOutsideThen(old(table), keyed, table, start, mid, mid + referencesWidth);
      PlacedStays(keyed, table, mid, mid + referencesWidth, start, NumberBytes(offset, nativeOffsetWidth));
    }

    /** The first free slot from the home of the offset on; there is one, so the search ends. */
    method FreeSlot(offset: Word32) returns (k: nat)
      requires Valid() && UsedCount(slots) < entries
      ensures k < entries && slots[k].Free? && Reaches(slots, Home(hash, offset, entries), k)
    {
      ghost var free := FindFree(slots);
      k := hash(offset) % entries;
      ghost var home, d := k, 0;
      while inUse[k]
        invariant d <= Steps(home, free, entries) && k == After(home, d, entries)
        invariant forall e {:trigger After(home, e, |slots|)} | 0 <= e < d :: slots[After(home, e, |slots|)].Used?
        decreases Steps(home, free, entries) - d
      {
        NextSlot(home, d, entries);
        k := (k + 1) % entries;
        d := d + 1;
      }
      StepsUnique(home, d, entries);
    }

    /** `AddEntry`: with room for another entry it terminates, and the new entry takes a free slot. */
    method AddEntry(offset: Word32, references: seq<Byte>) returns (ghost k: nat)
      requires Valid() && UsedCount(slots) < entries && Fresh(slots, offset)
      requires offset < Pow256(nativeOffsetWidth) && |references| == referencesWidth
      modifies `inUse, `table, `slots
      ensures Valid() && k < entries && old(slots)[k].Free?
      ensures slots == old(slots)[k := Used(offset, references)] && UsedCount(slots) == old(UsedCount(slots)) + 1
    {
      var index := FreeSlot(offset);
      k := index;
      inUse := inUse[index := true];
      WriteEntry(index, offset, references);
      InsertKeeps(hash, slots, index, offset, references);
      UsedMore(slots, index, Used(offset, references));
      EncodesMore(old(table), table, nativeOffsetWidth, referencesWidth, slots, index, Used(offset, references));
      slots := slots[index := Used(offset, references)];
    }
  }

  // ----- the map of a method -----

  /** A native pc and the bitmap of the references that are live there. */
  datatype Safepoint = Safepoint(offset: Word32, references: seq<Byte>)

  function SlotFor(p: Safepoint): Slot {
    Used(p.offset, p.references)
  }

  ghost predicate ValidPoints(points: seq<Safepoint>, referencesWidth: nat) {
    && |points| < 0x10000 && (points != [] ==> referencesWidth < 0x2000)
    && (forall i {:trigger points[i]} | 0 <= i < |points| :: |points[i].references| == referencesWidth)
    && (forall i, j {:trigger points[i], points[j]} | 0 <= i < j < |points| :: points[i].offset != points[j].offset)
  }

  method MaxOffset(points: seq<Safepoint>) returns (max: Word32)
    ensures forall i {:trigger points[i]} | 0 <= i < |points| :: points[i].offset <= max
  {
    max := 0;
    for i := 0 to |points|
      invariant forall j {:trigger points[j]} | 0 <= j < i :: points[j].offset <= max
    {
      if points[i].offset > max {
        max := points[i].offset;
      }
    }
  }

  ghost predicate AllListed(slots: seq<Slot>, points: seq<Safepoint>, n: nat)
    requires n <= |points|
  {
    forall i {:trigger points[i]} | 0 <= i < n :: SlotFor(points[i]) in slots
  }

  ghost predicate AllFresh(slots: seq<Slot>, points: seq<Safepoint>, n: nat)
    requires n <= |points|
  {
    forall i {:trigger points[i]} | n <= i < |points| :: Fresh(slots, points[i].offset)
  }

  lemma ListedMore(slots: seq<Slot>, k: nat, points: seq<Safepoint>, n: nat)
    requires n < |points| && k < |slots| && slots[k].Free? && AllListed(slots, points, n)
    ensures AllListed(slots[k := SlotFor(points[n])], points, n + 1)
  {
    var more := slots[k := SlotFor(points[n])];
    forall i | 0 <= i <= n ensures SlotFor(points[i]) in more {
      if i < n {
        var j :| 0 <= j < |slots| && slots[j] == SlotFor(points[i]);
        assert more[j] == slots[j];
      } else {
        assert more[k] == SlotFor(points[n]);
      }
    }
  }

  lemma FreshMore(slots: seq<Slot>, k: nat, points: seq<Safepoint>, n: nat, width: nat)
    requires n < |points| && k < |slots| && ValidPoints(points, width) && AllFresh(slots, points, n)
    ensures AllFresh(slots[k := SlotFor(points[n])], points, n + 1)
  {
    var more := slots[k := SlotFor(points[n])];
    forall i | n < i < |points| ensures Fresh(more, points[i].offset) {
      assert points[n].offset != points[i].offset && Fresh(slots, points[i].offset);
    }
  }

  /** The map of a method lists every safepoint; all additions find a free slot. */
  method CreateNativeGcMap(hash: Hash, points: seq<Safepoint>, referencesWidth: nat)
    returns (table: seq<Byte>, ghost width: nat, ghost references: nat, ghost slots: seq<Slot>)
    requires ValidPoints(points, referencesWidth)
    ensures width <= 4 && references == if points != [] then referencesWidth else 0
    ensures Encodes(table, width, references, slots) && SlotsOk(hash, slots)
    ensures |slots| == |points| && AllListed(slots, points, |points|)
  {
    var max := MaxOffset(points);
    KeyWidthFits(|points|, max);
    var builder := new GcMapBuilder(hash, [], |points|, max, referencesWidth);
    for i := 0 to |points|
      invariant fresh(builder) && builder.Valid() && UsedCount(builder.slots) == i
      invariant AllListed(builder.slots, points, i) && AllFresh(builder.slots, points, i)
    {
      ghost var before := builder.slots;
      ghost var k := builder.AddEntry(points[i].offset, points[i].references);
      ListedMore(before, k, points, i);
      FreshMore(before, k, points, i, referencesWidth);
    }
    table, width, references, slots := builder.table, builder.nativeOffsetWidth, builder.referencesWidth, builder.slots;
  }

  // ----- the reader -----

  /** A table byte as it enters the shift: promoted to `int` and, shifted into the sign bit, extended
      when the pointer type is wider than 32 bits. */
  function Promoted(b: Byte, i: nat, wide: bool): nat {
    if wide && i == 3 && b >= 0x80 then b + 0xFF_FFFF_FF00 else b
  }

  /** The key as the reader decodes it. */
  function ReaderKey(bytes: seq<Byte>, wide: bool): nat {
    BytesNumber(bytes) + if wide && |bytes| == 4 && bytes[3] >= 0x80 then 0xFFFF_FFFF_0000_0000 else 0
  }

  /** Or-ing in one more byte. */
  function OrByte(key: nat, b: Byte, i: nat, wide: bool): nat {
    Or(key, Promoted(b, i, wide) * Pow256(i))
  }

  lemma {:induction false} OrByteIsSum(bytes: seq<Byte>, b: Byte, wide: bool)
    ensures OrByte(BytesNumber(bytes), b, |bytes|, wide)
         == BytesNumber(bytes) + Promoted(b, |bytes|, wide) * Pow256(|bytes|)
  {
    NumberBound(bytes);
    Pow256IsPow2(|bytes|);
    OrDisjoint(BytesNumber(bytes), Promoted(b, |bytes|, wide), 8 * |bytes|);
  }

  lemma {:induction false} PromotedValue(b: Byte, i: nat, wide: bool)
    requires i < 4
    ensures Promoted(b, i, wide) * Pow256(i) ==
            b * Pow256(i) + if wide && i == 3 && b >= 0x80 then 0xFFFF_FFFF_0000_0000 else 0
  {
    assert Pow256(1) == 0x100;
    assert Pow256(2) == 0x1_0000;
    assert Pow256(3) == 0x100_0000;
  }

  lemma ReaderKeyMore(bytes: seq<Byte>, b: Byte, wide: bool)
    requires |bytes| < 4
    ensures ReaderKey(bytes + [b], wide) == OrByte(ReaderKey(bytes, wide), b, |bytes|, wide)
  {
    OrByteIsSum(bytes, b, wide);
    PromotedValue(b, |bytes|, wide);
    NumberAppend(bytes, b);
  }

  /** The reader decodes the key the builder wrote if and only if it does not reach the sign bit of a
      32-bit word, or pointers have 32 bits; otherwise it decodes no 32-bit offset at all. */
  lemma {:induction false} ReaderKeyExact(offset: Word32, width: nat, wide: bool)
    requires offset < Pow256(width) && width <= 4
    ensures ReaderKey(NumberBytes(offset, width), wide) == offset <==> !(wide && offset >= 0x8000_0000)
    ensures wide && offset >= 0x8000_0000 ==> ReaderKey(NumberBytes(offset, width), wide) >= TWO32
  {
    NumberRoundTrip(offset, width);
    assert Pow256(1) == 0x100 && Pow256(2) == 0x1_0000 && Pow256(3) == 0x100_0000;
    if width == 4 {
      ByteBound(offset, 3);
      assert NumberBytes(offset, width)[3] == offset / 0x100_0000;
    }
  }

  /** The loop over the bytes of a key. */
  method ReadKey(bytes: seq<Byte>, wide: bool) returns (key: nat)
    requires |bytes| <= 4
    ensures key == ReaderKey(bytes, wide)
  {
    key := 0;
    for i := 0 to |bytes|
      invariant key == ReaderKey(bytes[..i], wide)
    {
      assert bytes[..i + 1] == bytes[..i] + [bytes[i]];
      ReaderKeyMore(bytes[..i], bytes[i], wide);
      key := OrByte(key, bytes[i], i, wide);
    }
    assert bytes[..|bytes|] == bytes;
  }

  /** Where entry `k` begins, by the widths in the header. */
  method EntryStart(data: seq<Byte>, k: nat, ghost width: nat, ghost references: nat, ghost entries: nat)
    returns (start: nat)
    requires ReadsBack(data, width, references, entries)
    ensures start == EntryAt(k, width + references)
  {
    var entry := ReadWidth(data) + ReadReferences(data);
    EntryAtIsProduct(k, entry);
    start := k * entry + 4;
  }

  /** `GetNativePcOffset`: the key of entry `k`. */
  method GetNativePcOffset(data: seq<Byte>, k: nat, wide: bool, ghost width: nat, ghost references: nat,
                           ghost entries: nat) returns (key: nat)
    requires ReadsBack(data, width, references, entries) && width <= 4
    requires k < entries && |data| == EntryAt(entries, width + references)
    ensures EntryAt(k, width + references) + width <= |data|
    ensures key == ReaderKey(data[EntryAt(k, width + references)..EntryAt(k, width + references) + width], wide)
  {
    var start := EntryStart(data, k, width, references, entries);
    EntriesApart(k, entries, width + references);
    key := ReadKey(data[start..start + ReadWidth(data)], wide);
  }

  /** The key of a used slot. */
  lemma {:induction false} SlotKey(data: seq<Byte>, width: nat, references: nat, slots: seq<Slot>, k: nat)
    requires Encodes(data, width, references, slots) && k < |slots| && slots[k].Used?
    ensures EntryAt(k, width + references) + width <= |data|
    ensures data[EntryAt(k, width + references)..EntryAt(k, width + references) + width]
         == NumberBytes(slots[k].offset, width)
    ensures slots[k].offset < Pow256(width)
  {
    EntriesApart(k, |slots|, width + references);
    assert EntryPlaced(data, width, references, k, slots[k]);
    var start, bytes := EntryAt(k, width + references), NumberBytes(slots[k].offset, width);
    forall i | 0 <= i < width ensures data[start + i] == bytes[i] {
      assert At(data, start + i) == bytes[i];
    }
  }

  /** `FindBitMap`: for an offset that was added, the search stops at its own entry. */
  method FindBitMap(data: seq<Byte>, hash: Hash, offset: Word32, wide: bool, ghost width: nat, ghost references: nat,
                    ghost slots: seq<Slot>, ghost target: nat) returns (place: nat)
    requires Encodes(data, width, references, slots) && width <= 4 && SlotsOk(hash, slots)
    requires Holds(slots, target, offset) && !(wide && offset >= 0x8000_0000)
    ensures Placed(data, place, slots[target].references)
    ensures place == EntryAt(target, width + references) + width
  {
    var entries := ReadEntries(data);
    var index := hash(offset) % entries;
    ghost var home, d := index, 0;
    assert Reachable(hash, slots, target);
    var key := GetNativePcOffset(data, index, wide, width, references, entries);
    while key != offset
      invariant d <= Steps(home, target, entries) && index == After(home, d, entries)
      invariant KeyAt(data, width, references, slots, index, wide, key)
      decreases Steps(home, target, entries) - d
    {
      TargetMatches(data, width, references, slots, index, wide, key, target, offset);
      NextSlot(home, d, entries);
      index := (index + 1) % entries;
      d := d + 1;
      key := GetNativePcOffset(data, index, wide, width, references, entries);
    }
    assert index == target by {
      StopsAtTarget(data, width, references, hash, slots, d, wide, key, target, offset);
    }
    var start := EntryStart(data, index, width, references, entries);
    place := start + ReadWidth(data);
    assert EntryPlaced(data, width, references, target, slots[target]);
  }

  /** `key` is what the reader decodes at slot `k`. */
  ghost predicate KeyAt(data: seq<Byte>, width: nat, references: nat, slots: seq<Slot>, k: nat, wide: bool, key: nat) {
    && k < |slots| && EntryAt(k, width + references) + width <= |data|
    && key == ReaderKey(data[EntryAt(k, width + references)..EntryAt(k, width + references) + width], wide)
  }

  lemma TargetMatches(data: seq<Byte>, width: nat, references: nat, slots: seq<Slot>, k: nat, wide: bool, key: nat,
                      target: nat, offset: Word32)
    requires Encodes(data, width, references, slots) && width <= 4 && KeyAt(data, width, references, slots, k, wide, key)
    requires Holds(slots, target, offset) && !(wide && offset >= 0x8000_0000)
    ensures k == target ==> key == offset
  {
    SlotKey(data, width, references, slots, target);
    ReaderKeyExact(offset, width, wide);
  }

  /** On the way from the home to its entry no other entry has the key. */
  lemma StopsAtTarget(data: seq<Byte>, width: nat, references: nat, hash: Hash, slots: seq<Slot>, d: nat, wide: bool,
                      key: nat, target: nat, offset: Word32)
    requires Encodes(data, width, references, slots) && width <= 4 && SlotsOk(hash, slots)
    requires Holds(slots, target, offset) && d <= Steps(Home(hash, offset, |slots|), target, |slots|)
    requires KeyAt(data, width, references, slots, After(Home(hash, offset, |slots|), d, |slots|), wide, key)
    requires key == offset
    ensures After(Home(hash, offset, |slots|), d, |slots|) == target
  {
    var home := Home(hash, offset, |slots|);
    var k := After(home, d, |slots|);
    if d < Steps(home, target, |slots|) {
      assert Reachable(hash, slots, target);
      assert slots[k].Used?;
      SlotKey(data, width, references, slots, k);
      ReaderKeyExact(slots[k].offset, width, wide);
      assert Same(slots, k, target);
    }
  }

  /** With wide pointers an offset from 2^31 on is never found. */
  lemma NeverFound(data: seq<Byte>, width: nat, references: nat, slots: seq<Slot>, k: nat, key: nat, offset: Word32)
    requires Encodes(data, width, references, slots) && width <= 4 && k < |slots| && slots[k].Used?
    requires KeyAt(data, width, references, slots, k, true, key) && offset >= 0x8000_0000
    ensures key != offset
  {
    SlotKey(data, width, references, slots, k);
    ReaderKeyExact(slots[k].offset, width, true);
  }
}
