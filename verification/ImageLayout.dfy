/**
 The image writer lays out the heap. The first pass walks the objects and gives each a bin slot,
 kept in its lock word; the second pass turns slots into image offsets, once all bin sizes are known.
 Hash codes found in the lock words are saved under the slot and moved to the offset.
 */
module ImageLayout {
  import opened Bytes
  import opened Sequences
  import opened ImageSlots
  import opened BinLayout
  import opened ImageHeap

  type Words = map<Id, Word32>

  predicate Assigned(words: Words, o: Id) {
    o in words && State(words[o]) == ForwardingAddress
  }

  /** Places once assigned are kept. */
  ghost predicate Extends(before: Words, after: Words) {
    before.Keys == after.Keys && forall o {:trigger after[o]} | o in before && Assigned(before, o) :: after[o] == before[o]
  }

  ghost function Unassigned(words: Words): set<Id> {
    set o | o in words && !Assigned(words, o)
  }

  lemma ExtendsShrinks(before: Words, after: Words)
    requires Extends(before, after)
    ensures Unassigned(after) <= Unassigned(before)
  {
    forall o | o in Unassigned(after) ensures o in Unassigned(before) {
      assert o in after && !Assigned(after, o);
      assert Assigned(before, o) ==> after[o] == before[o];
    }
  }

  lemma ExtendsUpdate(words: Words, o: Id, word: Word32)
    requires o in words && !Assigned(words, o)
    ensures Extends(words, words[o := word])
  {
  }

  lemma ExtendsThen(a: Words, b: Words, c: Words)
    requires Extends(a, b) && Extends(b, c)
    ensures Extends(a, c)
  {
    forall o | o in a && Assigned(a, o) ensures c[o] == a[o] {
      assert b[o] == a[o];
      assert Assigned(b, o);
    }
  }

  // ----- slots -----

  /** The objects that own a slot, in the order in which they got it. */
  ghost predicate OwnersOk(heap: Heap, owners: seq<Id>) {
    && AllIn(heap, owners) && Distinct(owners)
    && forall k {:trigger StandsForItself(heap, owners[k])} | 0 <= k < |owners| :: StandsForItself(heap, owners[k])
  }

  ghost predicate StandsForItself(heap: Heap, o: Id)
    requires o in heap.objects
  {
    Canonical(heap, o) == o
  }

  /** The slot of the `k`th owner: its bin, and what the bin held before it. */
  ghost function SlotAt(heap: Heap, owners: seq<Id>, k: nat): Word32
    requires AllIn(heap, owners) && k < |owners|
  {
    var items := ItemsOf(heap, owners);
    Pack(items[k].bin, BinEnd(items, k, items[k].bin))
  }

  /** The slots of all owners. */
  ghost function SlotsOf(heap: Heap, owners: seq<Id>): (slots: seq<Word32>)
    requires AllIn(heap, owners)
    ensures |slots| == |owners|
    ensures forall k {:trigger SlotAt(heap, owners, k)} | 0 <= k < |slots| :: slots[k] == SlotAt(heap, owners, k)
  {
    seq(|owners|, k requires 0 <= k < |owners| => SlotAt(heap, owners, k))
  }

  /** Owners hold their slots; every other assigned object holds that of the string it stands for. */
  ghost predicate SlotsOk(heap: Heap, words: Words, owners: seq<Id>, slots: seq<Word32>) {
    && OwnersOk(heap, owners) && |slots| == |owners| && words.Keys == heap.objects.Keys
    && (forall k {:trigger HoldsSlot(words, owners[k], slots[k])} | 0 <= k < |owners| ::
          HoldsSlot(words, owners[k], slots[k]))
    && (forall o {:trigger SharesSlot(heap, words, owners, o)} | o in words && Assigned(words, o) ::
          SharesSlot(heap, words, owners, o))
  }

  ghost predicate HoldsSlot(words: Words, o: Id, slot: Word32)
    requires o in words
  {
    words[o] == Forward(slot)
  }

  ghost predicate SharesSlot(heap: Heap, words: Words, owners: seq<Id>, o: Id)
    requires words.Keys == heap.objects.Keys && o in words
  {
    Canonical(heap, o) in owners && Canonical(heap, o) in words && words[o] == words[Canonical(heap, o)]
  }

  lemma {:induction false} OwnersAreOriginals(heap: Heap, owners: seq<Id>)
    requires ValidHeap(heap) && OwnersOk(heap, owners) && AllIn(heap, heap.order)
    ensures forall o | o in owners :: o in Originals(heap, heap.order)
  {
    forall o | o in owners ensures o in Originals(heap, heap.order) {
      var k :| 0 <= k < |owners| && owners[k] == o;
      assert StandsForItself(heap, owners[k]);
      assert o in heap.order;
    }
  }

  /** Heap and offsets fit the words they are kept in. */
  ghost predicate Bounded(heap: Heap, begin: nat) {
    ValidHeap(heap) && AllIn(heap, heap.order) && Fits(heap, begin)
  }

  lemma {:induction false} BinBounded(heap: Heap, begin: nat, owners: seq<Id>, b: nat)
    requires Bounded(heap, begin) && OwnersOk(heap, owners) && b < BINS
    ensures BinEnd(ItemsOf(heap, owners), |owners|, b) <= SHIFTED
  {
    OwnersAreOriginals(heap, owners);
    SubBins(heap, owners, Originals(heap, heap.order), b);
  }

  lemma TotalBounded(heap: Heap, begin: nat, owners: seq<Id>)
    requires Bounded(heap, begin) && OwnersOk(heap, owners)
    ensures Total(ItemsOf(heap, owners)) < TWO31 && begin + Total(ItemsOf(heap, owners)) <= TWO32
  {
    OwnersAreOriginals(heap, owners);
    var all := Originals(heap, heap.order);
    SubBase(heap, owners, all, BINS);
    ItemsValid(heap, owners);
    ItemsValid(heap, all);
    BaseIsTotal(ItemsOf(heap, owners));
    BaseIsTotal(ItemsOf(heap, all));
  }

  /** Bin and index are read back from every slot. */
  lemma {:induction false} SlotGood(heap: Heap, begin: nat, owners: seq<Id>, k: nat)
    requires Bounded(heap, begin) && OwnersOk(heap, owners) && k < |owners|
    ensures var slot, items := SlotAt(heap, owners, k), ItemsOf(heap, owners);
            && slot % 8 == 0 && items[k].bin < BINS
            && GetBin(slot) == items[k].bin && GetIndex(slot) == BinEnd(items, k, items[k].bin)
  {
    var items := ItemsOf(heap, owners);
    ItemsValid(heap, owners);
    var b := items[k].bin;
    BinBounded(heap, begin, owners, b);
    BinEndAfter(items, k, |items|);
    BinEndAligned(items, k, b);
    SlotRoundTrip(b, BinEnd(items, k, b));
  }

  lemma SlotStable(heap: Heap, owners: seq<Id>, o: Id, k: nat)
    requires AllIn(heap, owners) && o in heap.objects && k < |owners|
    ensures AllIn(heap, owners + [o]) && SlotAt(heap, owners + [o], k) == SlotAt(heap, owners, k)
  {
    var items, x := ItemsOf(heap, owners), ItemOf(heap, o);
    assert ItemsOf(heap, owners + [o]) == items + [x];
    BinEndPrefix(items, [x], k, items[k].bin);
  }

  lemma ItemsMore(heap: Heap, owners: seq<Id>, o: Id)
    requires AllIn(heap, owners) && o in heap.objects
    ensures AllIn(heap, owners + [o]) && ItemsOf(heap, owners + [o]) == ItemsOf(heap, owners) + [ItemOf(heap, o)]
  {
  }

  /** The slot of a new owner is where its bin ends. */
  lemma {:induction false} NewSlot(heap: Heap, owners: seq<Id>, o: Id)
    requires AllIn(heap, owners) && o in heap.objects
    ensures AllIn(heap, owners + [o])
    ensures var x := ItemOf(heap, o);
            && ItemsOf(heap, owners + [o]) == ItemsOf(heap, owners) + [x]
            && SlotAt(heap, owners + [o], |owners|) == Pack(x.bin, BinEnd(ItemsOf(heap, owners), |owners|, x.bin))
  {
    var items, x := ItemsOf(heap, owners), ItemOf(heap, o);
    ItemsMore(heap, owners, o);
    assert BinEnd(items + [x], |owners|, x.bin) == BinEnd(items, |owners|, x.bin) by {
      BinEndPrefix(items, [x], |owners|, x.bin);
    }
  }

  lemma SlotsStep(heap: Heap, owners: seq<Id>, o: Id)
    requires AllIn(heap, owners) && o in heap.objects
    ensures AllIn(heap, owners + [o])
    ensures SlotsOf(heap, owners + [o]) == SlotsOf(heap, owners) + [SlotAt(heap, owners + [o], |owners|)]
  {
    NewSlot(heap, owners, o);
    var slots, more := SlotsOf(heap, owners), SlotsOf(heap, owners + [o]);
    var expected := slots + [SlotAt(heap, owners + [o], |owners|)];
    forall k | 0 <= k < |more| ensures more[k] == expected[k] {
      assert more[k] == SlotAt(heap, owners + [o], k);
      if k < |owners| {
        SlotStable(heap, owners, o, k);
        assert slots[k] == SlotAt(heap, owners, k);
      }
    }
  }

  /** Owners have places. */
  lemma OwnerAssigned(heap: Heap, words: Words, owners: seq<Id>, slots: seq<Word32>, k: nat)
    requires SlotsOk(heap, words, owners, slots) && k < |owners|
    ensures Assigned(words, owners[k])
  {
    assert HoldsSlot(words, owners[k], slots[k]);
    ForwardRoundTrip(slots[k]);
  }

  /** Giving an object that stands for itself a slot of its own. */
  lemma AssignStep(heap: Heap, words: Words, owners: seq<Id>, slots: seq<Word32>, o: Id, slot: Word32)
    requires SlotsOk(heap, words, owners, slots) && o in words && !Assigned(words, o) && Canonical(heap, o) == o
    ensures SlotsOk(heap, words[o := Forward(slot)], owners + [o], slots + [slot])
  {
    var after, more := words[o := Forward(slot)], owners + [o];
    NotOwner(heap, words, owners, slots, o);
    DistinctMore(owners, o);
    forall k | 0 <= k < |more|
      ensures StandsForItself(heap, more[k]) && HoldsSlot(after, more[k], (slots + [slot])[k])
    {
      if k < |owners| {
        assert StandsForItself(heap, owners[k]) && HoldsSlot(words, owners[k], slots[k]);
        assert owners[k] in owners;
      }
    }
    forall p | p in after && Assigned(after, p) ensures SharesSlot(heap, after, more, p) {
      if p != o {
        assert Assigned(words, p);
        assert SharesSlot(heap, words, owners, p);
      }
    }
  }

  /** Pointing a string at the slot of its interned string. */
  lemma ShareStep(heap: Heap, words: Words, owners: seq<Id>, slots: seq<Word32>, o: Id)
    requires ValidHeap(heap) && SlotsOk(heap, words, owners, slots) && o in words && !Assigned(words, o)
    requires Canonical(heap, o) != o && Assigned(words, Canonical(heap, o))
    ensures SlotsOk(heap, words[o := words[Canonical(heap, o)]], owners, slots)
  {
    var c := Canonical(heap, o);
    var after := words[o := words[c]];
    CanonicalIdempotent(heap, o);
    assert SharesSlot(heap, words, owners, c);
    NotOwner(heap, words, owners, slots, o);
    forall k | 0 <= k < |owners| ensures HoldsSlot(after, owners[k], slots[k]) {
      assert HoldsSlot(words, owners[k], slots[k]);
      assert owners[k] in owners;
    }
    forall p | p in after && Assigned(after, p) ensures SharesSlot(heap, after, owners, p) {
      if p != o {
        assert Assigned(words, p);
        assert SharesSlot(heap, words, owners, p);
      }
    }
  }

  // ----- saved hash codes -----

  datatype Found = Nobody | Somebody(id: Id)

  /** An object that had a hash code, and whose word leads to `place`. */
  ghost predicate Leads(initial: Words, words: Words, o: Id, place: Word32) {
    o in initial && o in words && State(initial[o]) == HashCode && Forwarded(words[o]) == place
  }

  /** The last one in `settled`, the order in which the objects got their slots. */
  ghost function LastHashed(initial: Words, words: Words, settled: seq<Id>, place: Word32): (r: Found)
    ensures r.Somebody? ==> r.id in settled && Leads(initial, words, r.id, place)
  {
    if settled == [] then Nobody
    else
      var o, rest := settled[|settled| - 1], settled[..|settled| - 1];
      if Leads(initial, words, o, place) then Somebody(o) else LastHashed(initial, words, rest, place)
  }

  lemma {:induction false} SomebodyLeads(initial: Words, words: Words, settled: seq<Id>, o: Id, place: Word32)
    requires o in settled && Leads(initial, words, o, place)
    ensures LastHashed(initial, words, settled, place).Somebody?
  {
    var last, rest := settled[|settled| - 1], settled[..|settled| - 1];
    if !Leads(initial, words, last, place) {
      assert settled == rest + [last];
      SomebodyLeads(initial, words, rest, o, place);
    }
  }

  lemma {:induction false} LastHashedSame(initial: Words, before: Words, after: Words, settled: seq<Id>, place: Word32)
    requires forall o | o in settled :: o in before && o in after && after[o] == before[o]
    ensures LastHashed(initial, after, settled, place) == LastHashed(initial, before, settled, place)
  {
    if settled != [] {
      var rest := settled[..|settled| - 1];
      assert forall o | o in rest :: o in settled;
      assert settled[|settled| - 1] in settled;
      LastHashedSame(initial, before, after, rest, place);
    }
  }

  /** Under a slot is saved the hash code of the last object there that had one, and nothing if none had. */
  ghost predicate SavedIs(initial: Words, words: Words, settled: seq<Id>, hashes: map<Word32, Word32>, slot: Word32) {
    match LastHashed(initial, words, settled, slot)
    case Nobody => slot !in hashes
    case Somebody(o) => slot in hashes && hashes[slot] == HashOf(initial[o])
  }

  ghost predicate HashesOk(initial: Words, words: Words, settled: seq<Id>, hashes: map<Word32, Word32>) {
    && (forall o {:trigger o in settled} :: o in settled <==> Assigned(words, o))
    && (forall slot {:trigger SavedIs(initial, words, settled, hashes, slot)} ::
          SavedIs(initial, words, settled, hashes, slot))
  }

  function SaveHash(hashes: map<Word32, Word32>, slot: Word32, word: Word32): map<Word32, Word32> {
    if State(word) == HashCode then hashes[slot := HashOf(word)] else hashes
  }

  lemma HashesStep(initial: Words, words: Words, settled: seq<Id>, hashes: map<Word32, Word32>, o: Id, slot: Word32)
    requires HashesOk(initial, words, settled, hashes) && o in words && o in initial && words[o] == initial[o]
    requires !Assigned(words, o) && slot % 8 == 0
    ensures HashesOk(initial, words[o := Forward(slot)], settled + [o], SaveHash(hashes, slot, words[o]))
  {
    var after, more := words[o := Forward(slot)], SaveHash(hashes, slot, words[o]);
    ForwardObject(slot);
    forall w: Word32 ensures SavedIs(initial, after, settled + [o], more, w) {
      assert SavedIs(initial, words, settled, hashes, w);
      assert (settled + [o])[..|settled|] == settled;
      LastHashedSame(initial, words, after, settled, w);
    }
  }

  /** Neither locked nor forwarded. */
  predicate Unowned(word: Word32) {
    State(word) == Unlocked || State(word) == HashCode
  }

  /** No object is locked, and none has a place yet. */
  ghost predicate Deflated(words: Words) {
    forall o {:trigger Unowned(words[o])} | o in words :: Unowned(words[o])
  }

  /** Objects without a place still have their first lock word. */
  ghost predicate Untouched(initial: Words, words: Words) {
    && initial.Keys == words.Keys
    && forall o {:trigger Assigned(words, o)} | o in words && !Assigned(words, o) :: words[o] == initial[o]
  }

  /** The sizes of the bins so far. */
  ghost predicate AreSizes(heap: Heap, owners: seq<Id>, sizes: seq<nat>)
    requires AllIn(heap, owners)
  {
    |sizes| == BINS &&
    forall b {:trigger BinEnd(ItemsOf(heap, owners), |owners|, b)} | 0 <= b < BINS ::
      sizes[b] == BinEnd(ItemsOf(heap, owners), |owners|, b)
  }

  lemma SizesStep(heap: Heap, sizes: seq<nat>, owners: seq<Id>, o: Id)
    requires AllIn(heap, owners) && o in heap.objects && AreSizes(heap, owners, sizes)
    ensures AllIn(heap, owners + [o])
    ensures var x := ItemOf(heap, o);
            && AreSizes(heap, owners + [o], sizes[x.bin := sizes[x.bin] + x.extent])
            && Total(ItemsOf(heap, owners + [o])) == Total(ItemsOf(heap, owners)) + x.extent
  {
    NewSlot(heap, owners, o);
    var items, x := ItemsOf(heap, owners), ItemOf(heap, o);
    var more := items + [x];
    forall b | 0 <= b < BINS ensures BinEnd(more, |more|, b) == sizes[b] + if b == x.bin then x.extent else 0 {
      BinEndPrefix(items, [x], |items|, b);
      assert sizes[b] == BinEnd(items, |owners|, b);
    }
    assert more[..|more| - 1] == items;
  }

  lemma UntouchedStep(initial: Words, words: Words, o: Id, slot: Word32)
    requires Untouched(initial, words) && o in words
    ensures Untouched(initial, words[o := Forward(slot)])
  {
    ForwardRoundTrip(slot);
    var after := words[o := Forward(slot)];
    forall p | p in after && !Assigned(after, p) ensures after[p] == initial[p] {
      assert p != o && words[p] == after[p] && !Assigned(words, p);
    }
  }

  ghost predicate Aligned(slots: seq<Word32>) {
    forall k {:trigger slots[k]} | 0 <= k < |slots| :: slots[k] % 8 == 0
  }

  /** The slot of an assigned object is read back from its lock word. */
  lemma ReadsBack(heap: Heap, words: Words, owners: seq<Id>, slots: seq<Word32>, o: Id) returns (k: nat)
    requires SlotsOk(heap, words, owners, slots) && Assigned(words, o) && Aligned(slots)
    ensures k < |owners| && owners[k] == Canonical(heap, o) && Forwarded(words[o]) == slots[k]
    ensures slots[k] % 8 == 0 && words[o] == Forward(slots[k])
  {
    assert SharesSlot(heap, words, owners, o);
    k :| 0 <= k < |owners| && owners[k] == Canonical(heap, o);
    assert HoldsSlot(words, owners[k], slots[k]);
    ForwardObject(slots[k]);
  }

  // ----- the invariant of the first pass -----

  /** Bin sizes follow from the order in which the owners came. */
  ghost predicate PlacesOk(heap: Heap, begin: nat, owners: seq<Id>, sizes: seq<nat>, end: nat) {
    && OwnersOk(heap, owners) && AreSizes(heap, owners, sizes)
    && end == begin + Total(ItemsOf(heap, owners))
  }

  lemma PlacesStep(heap: Heap, begin: nat, owners: seq<Id>, sizes: seq<nat>, end: nat, o: Id)
    returns (slot: Word32)
    requires Bounded(heap, begin) && PlacesOk(heap, begin, owners, sizes, end)
    requires o in heap.objects && o !in owners && Canonical(heap, o) == o
    ensures AllIn(heap, owners + [o]) && SlotsOf(heap, owners + [o]) == SlotsOf(heap, owners) + [slot]
    ensures var x := ItemOf(heap, o);
            && slot == Pack(x.bin, sizes[x.bin]) && slot % 8 == 0
            && PlacesOk(heap, begin, owners + [o], sizes[x.bin := sizes[x.bin] + x.extent], end + x.extent)
  {
    NewSlot(heap, owners, o);
    DistinctMore(owners, o);
    forall k | 0 <= k < |owners| + 1 ensures StandsForItself(heap, (owners + [o])[k]) {
      if k < |owners| {
        assert StandsForItself(heap, owners[k]);
      }
    }
    slot := SlotAt(heap, owners + [o], |owners|);
    SlotGood(heap, begin, owners + [o], |owners|);
    SlotsStep(heap, owners, o);
    SizesStep(heap, sizes, owners, o);
  }

  /** Lock words and saved hash codes agree with the slots. */
  ghost predicate WordsOk(heap: Heap, initial: Words, words: Words, owners: seq<Id>, slots: seq<Word32>,
                          settled: seq<Id>, hashes: map<Word32, Word32>) {
    && SlotsOk(heap, words, owners, slots) && Aligned(slots)
    && Deflated(initial) && Untouched(initial, words) && HashesOk(initial, words, settled, hashes)
  }

  lemma NotOwner(heap: Heap, words: Words, owners: seq<Id>, slots: seq<Word32>, o: Id)
    requires SlotsOk(heap, words, owners, slots) && !Assigned(words, o)
    ensures o !in owners
  {
    forall k | 0 <= k < |owners| ensures owners[k] != o {
      OwnerAssigned(heap, words, owners, slots, k);
    }
  }

  lemma OwnedIfAssigned(heap: Heap, words: Words, owners: seq<Id>, slots: seq<Word32>, o: Id)
    requires SlotsOk(heap, words, owners, slots) && Assigned(words, o) && Canonical(heap, o) == o
    ensures o in owners
  {
    assert SharesSlot(heap, words, owners, o);
  }

  lemma WordsAssign(heap: Heap, initial: Words, words: Words, owners: seq<Id>, slots: seq<Word32>,
                    settled: seq<Id>, hashes: map<Word32, Word32>, o: Id, slot: Word32)
    requires WordsOk(heap, initial, words, owners, slots, settled, hashes)
    requires o in words && !Assigned(words, o) && Canonical(heap, o) == o && slot % 8 == 0
    ensures Unowned(words[o])
    ensures WordsOk(heap, initial, words[o := Forward(slot)], owners + [o], slots + [slot], settled + [o],
                    SaveHash(hashes, slot, words[o]))
    ensures Assigned(words[o := Forward(slot)], o)
  {
    assert Unowned(initial[o]);
    ForwardRoundTrip(slot);
    AssignStep(heap, words, owners, slots, o, slot);
    HashesStep(initial, words, settled, hashes, o, slot);
    UntouchedStep(initial, words, o, slot);
  }

  lemma WordsShare(heap: Heap, initial: Words, words: Words, owners: seq<Id>, slots: seq<Word32>,
                   settled: seq<Id>, hashes: map<Word32, Word32>, o: Id)
    requires ValidHeap(heap) && WordsOk(heap, initial, words, owners, slots, settled, hashes) && o in words
    requires !Assigned(words, o) && Canonical(heap, o) != o && Assigned(words, Canonical(heap, o))
    ensures Unowned(words[o])
    ensures var word := words[Canonical(heap, o)];
            && Forward(Forwarded(word)) == word
            && WordsOk(heap, initial, words[o := word], owners, slots, settled + [o],
                       SaveHash(hashes, Forwarded(word), words[o]))
  {
    assert Unowned(initial[o]);
    var c := Canonical(heap, o);
    CanonicalIdempotent(heap, o);
    var k := ReadsBack(heap, words, owners, slots, c);
    ShareStep(heap, words, owners, slots, o);
    HashesStep(initial, words, settled, hashes, o, slots[k]);
    UntouchedStep(initial, words, o, slots[k]);
  }

  // ----- the layout of the image -----

  /** The image offset of an object. */
  ghost function ImageOffset(words: Words, o: Id): nat
    requires o in words
  {
    Forwarded(words[o])
  }

  /** An object is aligned and inside the image, where the object that stands for it is. */
  ghost predicate InImage(heap: Heap, words: Words, begin: nat, end: nat, o: Id)
    requires o in heap.objects
  {
    && Canonical(heap, o) in heap.objects && o in words && Canonical(heap, o) in words
    && ImageOffset(words, o) == ImageOffset(words, Canonical(heap, o))
    && ImageOffset(words, o) % 8 == 0
    && begin <= ImageOffset(words, o) && ImageOffset(words, o) + Extent(heap, Canonical(heap, o)) <= end
  }

  /** Two objects do not overlap. */
  ghost predicate Apart(heap: Heap, words: Words, p: Id, q: Id)
    requires p in heap.objects && q in heap.objects && p in words && q in words
  {
    || ImageOffset(words, p) + Extent(heap, p) <= ImageOffset(words, q)
    || ImageOffset(words, q) + Extent(heap, q) <= ImageOffset(words, p)
  }

  /** Byte `b` of the image belongs to `o`. */
  ghost predicate Holds(heap: Heap, words: Words, o: Id, b: nat) {
    && o in heap.objects && o in words && Canonical(heap, o) == o
    && ImageOffset(words, o) <= b < ImageOffset(words, o) + Extent(heap, o)
  }

  /** The layout: every object inside and aligned, distinct objects apart, strings together with
      their interned string, and no byte left over. */
  ghost predicate LaidOut(heap: Heap, words: Words, begin: nat, end: nat) {
    && words.Keys == heap.objects.Keys
    && AllInImage(heap, words, begin, end) && AllApart(heap, words) && AllCovered(heap, words, begin, end)
    && AllInOrder(heap, words)
  }

  ghost predicate AllInImage(heap: Heap, words: Words, begin: nat, end: nat) {
    forall o {:trigger InImage(heap, words, begin, end, o)} | o in heap.objects :: InImage(heap, words, begin, end, o)
  }

  ghost predicate AllApart(heap: Heap, words: Words)
    requires words.Keys == heap.objects.Keys
  {
    forall p, q {:trigger Apart(heap, words, p, q)} | p in heap.objects && q in heap.objects && p != q &&
        Canonical(heap, p) == p && Canonical(heap, q) == q :: Apart(heap, words, p, q)
  }

  /** Bins follow each other. */
  ghost predicate InBinOrder(heap: Heap, words: Words, p: Id, q: Id)
    requires p in heap.objects && q in heap.objects && p in words && q in words
  {
    Number(BinOf(heap.objects[p].kind)) < Number(BinOf(heap.objects[q].kind)) ==>
      ImageOffset(words, p) + Extent(heap, p) <= ImageOffset(words, q)
  }

  ghost predicate AllInOrder(heap: Heap, words: Words)
    requires words.Keys == heap.objects.Keys
  {
    forall p, q {:trigger InBinOrder(heap, words, p, q)} | p in heap.objects && q in heap.objects &&
        Canonical(heap, p) == p && Canonical(heap, q) == q :: InBinOrder(heap, words, p, q)
  }

  ghost predicate AllCovered(heap: Heap, words: Words, begin: nat, end: nat) {
    forall b | begin <= b < end :: Covers(heap, words, b)
  }

  ghost predicate Covers(heap: Heap, words: Words, b: nat) {
    exists o :: Holds(heap, words, o, b)
  }

  // ----- what the layout means for the bytes of the objects -----

  /** The object has bytes of its own: it is no string, or an interned one. */
  ghost predicate OwnBytes(heap: Heap, o: Id) {
    o in heap.objects && (heap.objects[o].kind.StringObject? ==> heap.objects[o].kind.interned == o)
  }

  /** The bytes of `o` are `[from, to)`: as many as the object has, for a method as many as methods have on
      the target. */
  ghost predicate Occupies(heap: Heap, words: Words, o: Id, from: nat, to: nat) {
    && OwnBytes(heap, o) && o in words && from == ImageOffset(words, o)
    && to == from + if heap.objects[o].kind.MethodObject? then heap.methodSize else heap.objects[o].size
  }

  /** The bytes of `p` lie before those of `q`. */
  ghost predicate LiesBefore(heap: Heap, words: Words, p: Id, q: Id) {
    exists a: nat, b: nat, c: nat, d: nat :: Occupies(heap, words, p, a, b) && Occupies(heap, words, q, c, d) && b <= c
  }

  /** At `at` the image ends, or an object begins. */
  ghost predicate Boundary(heap: Heap, words: Words, end: nat, at: nat) {
    at == end || exists q, to: nat :: Occupies(heap, words, q, at, to)
  }

  /** An object begins at a multiple of eight and ends inside the image, and less than eight bytes behind it
      the next object begins or the image ends. */
  ghost predicate Seated(heap: Heap, words: Words, begin: nat, end: nat, o: Id) {
    exists from: nat, to: nat, next: nat ::
      && Occupies(heap, words, o, from, to) && from % 8 == 0 && begin <= from && to <= end
      && to <= next < to + 8 && Boundary(heap, words, end, next)
  }

  /** A string that is not interned is where its interned string is. */
  ghost predicate WithInterned(heap: Heap, words: Words, o: Id) {
    o in heap.objects && o in words &&
    (heap.objects[o].kind.StringObject? ==>
       var i := heap.objects[o].kind.interned; i in words && ImageOffset(words, o) == ImageOffset(words, i))
  }

  /** Eight groups of objects, in the order of the image: strings, managed methods of initialized classes, other
      objects, classes that are initialized and have final statics only, other initialized classes, other
      classes, native methods, and other methods. */
  ghost predicate InGroup(kind: Kind, group: nat) {
    match kind
    case StringObject(_) => group == 0
    case MethodObject(native, initialized) => group == if native then 6 else if initialized then 1 else 7
    case ClassObject(initialized, finals) =>
      group == if !initialized then 5 else if exists i | 0 <= i < |finals| :: !finals[i] then 4 else 3
    case ArrayObject(_) => group == 2
    case PlainObject => group == 2
  }

  /** `p` belongs to a lower group than `q`. */
  ghost predicate Lower(heap: Heap, p: Id, q: Id)
    requires p in heap.objects && q in heap.objects
  {
    exists a, b :: InGroup(heap.objects[p].kind, a) && InGroup(heap.objects[q].kind, b) && a < b
  }

  /** The image as a reader finds it, in the sizes of the objects themselves. */
  ghost predicate WellSeated(heap: Heap, words: Words, begin: nat, end: nat) {
    && (forall o {:trigger WithInterned(heap, words, o)} | o in heap.objects :: WithInterned(heap, words, o))
    && (forall o {:trigger Seated(heap, words, begin, end, o)} | OwnBytes(heap, o) :: Seated(heap, words, begin, end, o))
    && (forall p, q {:trigger LiesBefore(heap, words, p, q)} | OwnBytes(heap, p) && OwnBytes(heap, q) && p != q ::
          LiesBefore(heap, words, p, q) || LiesBefore(heap, words, q, p))
    && (forall p, q {:trigger Lower(heap, p, q)} | OwnBytes(heap, p) && OwnBytes(heap, q) && Lower(heap, p, q) ::
          LiesBefore(heap, words, p, q))
    && Boundary(heap, words, end, begin)
  }

  /** The bytes of an object and its extent. */
  lemma ExtentIs(heap: Heap, words: Words, o: Id) returns (from: nat, to: nat)
    requires OwnBytes(heap, o) && o in words
    ensures from == ImageOffset(words, o) && Occupies(heap, words, o, from, to)
    ensures to <= from + Extent(heap, o) < to + 8
  {
    from := ImageOffset(words, o);
    to := from + ImageSize(heap, o);
  }

  lemma GroupIsBin(kind: Kind, group: nat)
    requires InGroup(kind, group)
    ensures Number(BinOf(kind)) == group
  {
  }

  lemma ApartLies(heap: Heap, words: Words, p: Id, q: Id)
    requires OwnBytes(heap, p) && OwnBytes(heap, q) && p in words && q in words
    requires ImageOffset(words, p) + Extent(heap, p) <= ImageOffset(words, q)
    ensures LiesBefore(heap, words, p, q)
  {
    var a, b := ExtentIs(heap, words, p);
    var c, d := ExtentIs(heap, words, q);
    assert Occupies(heap, words, p, a, b) && Occupies(heap, words, q, c, d) && b <= c;
  }

  /** Where the extent of an object ends, the next one begins, or the image ends. */
  lemma EndIsBoundary(heap: Heap, words: Words, begin: nat, end: nat, o: Id)
    requires ValidHeap(heap) && LaidOut(heap, words, begin, end) && OwnBytes(heap, o) && Extent(heap, o) > 0
    ensures Boundary(heap, words, end, ImageOffset(words, o) + Extent(heap, o))
  {
    assert InImage(heap, words, begin, end, o);
    var at := ImageOffset(words, o) + Extent(heap, o);
    if at != end {
      assert Covers(heap, words, at);
      var q :| Holds(heap, words, q, at);
      assert Apart(heap, words, o, q);
      var from, to := ExtentIs(heap, words, q);
      assert Occupies(heap, words, q, at, to);
    }
  }

  lemma BeginIsBoundary(heap: Heap, words: Words, begin: nat, end: nat)
    requires ValidHeap(heap) && LaidOut(heap, words, begin, end) && begin <= end
    ensures Boundary(heap, words, end, begin)
  {
    if begin != end {
      assert Covers(heap, words, begin);
      var q :| Holds(heap, words, q, begin);
      assert InImage(heap, words, begin, end, q);
      var from, to := ExtentIs(heap, words, q);
      assert Occupies(heap, words, q, begin, to);
    }
  }

  lemma LaidOutIsSeated(heap: Heap, words: Words, begin: nat, end: nat, o: Id)
    requires ValidHeap(heap) && LaidOut(heap, words, begin, end) && OwnBytes(heap, o)
    ensures Seated(heap, words, begin, end, o)
  {
    assert ValidObject(heap, heap.objects[o]);
    assert InImage(heap, words, begin, end, o);
    var from, to := ExtentIs(heap, words, o);
    EndIsBoundary(heap, words, begin, end, o);
    assert Boundary(heap, words, end, from + Extent(heap, o));
    assert Occupies(heap, words, o, from, to) && from % 8 == 0 && begin <= from && to <= end;
  }

  lemma LowerLies(heap: Heap, words: Words, begin: nat, end: nat, p: Id, q: Id)
    requires LaidOut(heap, words, begin, end) && OwnBytes(heap, p) && OwnBytes(heap, q) && Lower(heap, p, q)
    ensures LiesBefore(heap, words, p, q)
  {
    var a, b :| InGroup(heap.objects[p].kind, a) && InGroup(heap.objects[q].kind, b) && a < b;
    GroupIsBin(heap.objects[p].kind, a);
    GroupIsBin(heap.objects[q].kind, b);
    assert InBinOrder(heap, words, p, q);
    ApartLies(heap, words, p, q);
  }

  /** The layout, in the sizes of the objects themselves. */
  lemma LaidOutMeans(heap: Heap, words: Words, begin: nat, end: nat)
    requires ValidHeap(heap) && LaidOut(heap, words, begin, end) && begin <= end
    ensures WellSeated(heap, words, begin, end)
  {
    forall o | o in heap.objects ensures WithInterned(heap, words, o) {
      assert InImage(heap, words, begin, end, o);
    }
    forall o | OwnBytes(heap, o) ensures Seated(heap, words, begin, end, o) {
      LaidOutIsSeated(heap, words, begin, end, o);
    }
    forall p, q | OwnBytes(heap, p) && OwnBytes(heap, q) && p != q
      ensures LiesBefore(heap, words, p, q) || LiesBefore(heap, words, q, p)
    {
      assert Apart(heap, words, p, q);
      if ImageOffset(words, p) + Extent(heap, p) <= ImageOffset(words, q) {
        ApartLies(heap, words, p, q);
      } else {
        ApartLies(heap, words, q, p);
      }
    }
    forall p, q | OwnBytes(heap, p) && OwnBytes(heap, q) && Lower(heap, p, q) ensures LiesBefore(heap, words, p, q) {
      LowerLies(heap, words, begin, end, p, q);
    }
    BeginIsBoundary(heap, words, begin, end);
  }

  // ----- places of the owners -----

  /** Places for the owners, one each: `places[k]` is where `owners[k]` goes. */
  ghost predicate GoodPlaces(heap: Heap, owners: seq<Id>, places: seq<nat>, begin: nat, end: nat) {
    && OwnersOk(heap, owners) && |places| == |owners| && end <= TWO32
    && (forall k {:trigger GoodPlace(heap, owners[k], places[k], begin, end)} | 0 <= k < |owners| ::
          GoodPlace(heap, owners[k], places[k], begin, end))
    && (forall i, j {:trigger Separate(heap, owners, places, i, j)} | 0 <= i < j < |owners| ::
          Separate(heap, owners, places, i, j))
    && (forall i, j {:trigger Ranked(heap, owners, places, i, j)} | 0 <= i < |owners| && 0 <= j < |owners| ::
          Ranked(heap, owners, places, i, j))
    && (forall b | begin <= b < end :: CoveredPlace(heap, owners, places, b))
  }

  ghost predicate Ranked(heap: Heap, owners: seq<Id>, places: seq<nat>, i: nat, j: nat)
    requires AllIn(heap, owners) && |places| == |owners| && i < |owners| && j < |owners|
  {
    Number(BinOf(heap.objects[owners[i]].kind)) < Number(BinOf(heap.objects[owners[j]].kind)) ==>
      places[i] + Extent(heap, owners[i]) <= places[j]
  }

  ghost predicate CoveredPlace(heap: Heap, owners: seq<Id>, places: seq<nat>, b: nat)
    requires AllIn(heap, owners) && |places| == |owners|
  {
    exists k :: Contains(heap, owners, places, k, b)
  }

  ghost predicate GoodPlace(heap: Heap, o: Id, place: nat, begin: nat, end: nat)
    requires o in heap.objects
  {
    place % 8 == 0 && begin <= place && place + Extent(heap, o) <= end && Extent(heap, o) > 0
  }

  ghost predicate Separate(heap: Heap, owners: seq<Id>, places: seq<nat>, i: nat, j: nat)
    requires AllIn(heap, owners) && |places| == |owners| && i < |owners| && j < |owners|
  {
    places[i] + Extent(heap, owners[i]) <= places[j] || places[j] + Extent(heap, owners[j]) <= places[i]
  }

  ghost predicate Contains(heap: Heap, owners: seq<Id>, places: seq<nat>, k: nat, b: nat)
    requires AllIn(heap, owners) && |places| == |owners|
  {
    k < |owners| && places[k] <= b < places[k] + Extent(heap, owners[k])
  }

  /** The object `o` is forwarded to the place of the `k`th owner, which stands for it. */
  ghost predicate PlacedAs(heap: Heap, owners: seq<Id>, places: seq<nat>, words: Words, o: Id, k: nat)
    requires |places| == |owners| && o in heap.objects
  {
    && k < |owners| && owners[k] == Canonical(heap, o) && o in words
    && places[k] < TWO32 && words[o] == Forward(places[k])
  }

  ghost predicate AllPlaced(heap: Heap, owners: seq<Id>, places: seq<nat>, words: Words)
    requires |places| == |owners|
  {
    forall o | o in heap.objects :: exists k :: PlacedAs(heap, owners, places, words, o, k)
  }

  lemma OffsetOf(heap: Heap, owners: seq<Id>, places: seq<nat>, begin: nat, end: nat, words: Words, o: Id)
    returns (k: nat)
    requires GoodPlaces(heap, owners, places, begin, end) && AllPlaced(heap, owners, places, words)
    requires o in heap.objects
    ensures k < |owners| && owners[k] == Canonical(heap, o) && o in words && ImageOffset(words, o) == places[k]
    ensures GoodPlace(heap, owners[k], places[k], begin, end)
  {
    k :| PlacedAs(heap, owners, places, words, o, k);
    assert PlacedAs(heap, owners, places, words, o, k);
    assert GoodPlace(heap, owners[k], places[k], begin, end);
    ForwardObject(places[k]);
  }

  lemma PlacedInImage(heap: Heap, owners: seq<Id>, places: seq<nat>, begin: nat, end: nat, words: Words, o: Id)
    requires ValidHeap(heap) && GoodPlaces(heap, owners, places, begin, end) && AllPlaced(heap, owners, places, words)
    requires o in heap.objects
    ensures InImage(heap, words, begin, end, o)
  {
    CanonicalIdempotent(heap, o);
    var k := OffsetOf(heap, owners, places, begin, end, words, o);
    var j := OffsetOf(heap, owners, places, begin, end, words, Canonical(heap, o));
    DistinctIndex(owners, k, j);
  }

  lemma SeparateEither(heap: Heap, owners: seq<Id>, places: seq<nat>, begin: nat, end: nat, i: nat, j: nat)
    requires GoodPlaces(heap, owners, places, begin, end) && i < |owners| && j < |owners| && i != j
    ensures Separate(heap, owners, places, i, j)
  {
    if i < j {
      assert Separate(heap, owners, places, i, j);
    } else {
      assert Separate(heap, owners, places, j, i);
    }
  }

  lemma PlacedApart(heap: Heap, owners: seq<Id>, places: seq<nat>, begin: nat, end: nat, words: Words, p: Id, q: Id)
    requires GoodPlaces(heap, owners, places, begin, end) && AllPlaced(heap, owners, places, words)
    requires p in heap.objects && q in heap.objects && p != q && Canonical(heap, p) == p && Canonical(heap, q) == q
    ensures p in words && q in words && Apart(heap, words, p, q)
  {
    var i := OffsetOf(heap, owners, places, begin, end, words, p);
    var j := OffsetOf(heap, owners, places, begin, end, words, q);
    SeparateEither(heap, owners, places, begin, end, i, j);
  }

  lemma PlacedInOrder(heap: Heap, owners: seq<Id>, places: seq<nat>, begin: nat, end: nat, words: Words, p: Id, q: Id)
    requires GoodPlaces(heap, owners, places, begin, end) && AllPlaced(heap, owners, places, words)
    requires p in heap.objects && q in heap.objects && Canonical(heap, p) == p && Canonical(heap, q) == q
    ensures p in words && q in words && InBinOrder(heap, words, p, q)
  {
    var i := OffsetOf(heap, owners, places, begin, end, words, p);
    var j := OffsetOf(heap, owners, places, begin, end, words, q);
    assert Ranked(heap, owners, places, i, j);
  }

  lemma PlacedCovers(heap: Heap, owners: seq<Id>, places: seq<nat>, begin: nat, end: nat, words: Words, b: nat)
    returns (o: Id)
    requires GoodPlaces(heap, owners, places, begin, end) && AllPlaced(heap, owners, places, words)
    requires begin <= b < end
    ensures Holds(heap, words, o, b)
  {
    assert CoveredPlace(heap, owners, places, b);
    var k: nat :| Contains(heap, owners, places, k, b);
    assert Contains(heap, owners, places, k, b);
    o := owners[k];
    assert StandsForItself(heap, owners[k]);
    var j := OffsetOf(heap, owners, places, begin, end, words, o);
    DistinctIndex(owners, k, j);
  }

  lemma AllPlacedInImage(heap: Heap, owners: seq<Id>, places: seq<nat>, begin: nat, end: nat, words: Words)
    requires ValidHeap(heap) && GoodPlaces(heap, owners, places, begin, end) && AllPlaced(heap, owners, places, words)
    ensures AllInImage(heap, words, begin, end)
  {
    forall o | o in heap.objects ensures InImage(heap, words, begin, end, o) {
      PlacedInImage(heap, owners, places, begin, end, words, o);
    }
  }

  lemma AllPlacedApart(heap: Heap, owners: seq<Id>, places: seq<nat>, begin: nat, end: nat, words: Words)
    requires ValidHeap(heap) && GoodPlaces(heap, owners, places, begin, end) && AllPlaced(heap, owners, places, words)
    requires words.Keys == heap.objects.Keys
    ensures AllApart(heap, words)
  {
    forall p, q | p in heap.objects && q in heap.objects && p != q && Canonical(heap, p) == p && Canonical(heap, q) == q
      ensures Apart(heap, words, p, q)
    {
      PlacedApart(heap, owners, places, begin, end, words, p, q);
    }
  }

  lemma AllPlacedInOrder(heap: Heap, owners: seq<Id>, places: seq<nat>, begin: nat, end: nat, words: Words)
    requires ValidHeap(heap) && GoodPlaces(heap, owners, places, begin, end) && AllPlaced(heap, owners, places, words)
    requires words.Keys == heap.objects.Keys
    ensures AllInOrder(heap, words)
  {
    forall p, q | p in heap.objects && q in heap.objects && Canonical(heap, p) == p && Canonical(heap, q) == q
      ensures InBinOrder(heap, words, p, q)
    {
      PlacedInOrder(heap, owners, places, begin, end, words, p, q);
    }
  }

  lemma AllPlacedCover(heap: Heap, owners: seq<Id>, places: seq<nat>, begin: nat, end: nat, words: Words)
    requires ValidHeap(heap) && GoodPlaces(heap, owners, places, begin, end) && AllPlaced(heap, owners, places, words)
    ensures AllCovered(heap, words, begin, end)
  {
    forall b | begin <= b < end ensures Covers(heap, words, b) {
      var o := PlacedCovers(heap, owners, places, begin, end, words, b);
    }
  }

  lemma PlacedIsLaidOut(heap: Heap, owners: seq<Id>, places: seq<nat>, begin: nat, end: nat, words: Words)
    requires ValidHeap(heap) && GoodPlaces(heap, owners, places, begin, end) && AllPlaced(heap, owners, places, words)
    requires words.Keys == heap.objects.Keys
    ensures LaidOut(heap, words, begin, end)
  {
    AllPlacedInImage(heap, owners, places, begin, end, words);
    AllPlacedApart(heap, owners, places, begin, end, words);
    AllPlacedInOrder(heap, owners, places, begin, end, words);
    AllPlacedCover(heap, owners, places, begin, end, words);
  }

  // ----- from slots to places -----

  /** The offset a slot stands for, once all bin sizes are known. */
  ghost function SlotOffset(items: seq<Item>, begin: nat, slot: Word32): nat {
    begin + Base(items, GetBin(slot)) + GetIndex(slot)
  }

  ghost function PlacesOf(items: seq<Item>, begin: nat): (places: seq<nat>)
    ensures |places| == |items|
    ensures forall k {:trigger places[k]} | 0 <= k < |items| :: places[k] == begin + Place(items, k)
  {
    seq(|items|, k requires 0 <= k < |items| => begin + Place(items, k))
  }

  lemma SlotOffsetIsPlace(heap: Heap, begin: nat, owners: seq<Id>, k: nat)
    requires Bounded(heap, begin) && OwnersOk(heap, owners) && k < |owners|
    ensures var items := ItemsOf(heap, owners);
            SlotOffset(items, begin, SlotsOf(heap, owners)[k]) == PlacesOf(items, begin)[k]
  {
    SlotGood(heap, begin, owners, k);
    assert SlotsOf(heap, owners)[k] == SlotAt(heap, owners, k);
  }

  lemma ItemAligned(items: seq<Item>, begin: nat, k: nat)
    requires ValidItems(items) && begin % 8 == 0 && k < |items|
    ensures PlacesOf(items, begin)[k] % 8 == 0
  {
    PlaceInside(items, k);
    SumAligned(begin, Place(items, k));
  }

  lemma {:induction false} ItemInside(items: seq<Item>, begin: nat, k: nat)
    requires ValidItems(items) && k < |items|
    ensures var place := PlacesOf(items, begin)[k];
            begin <= place && place + items[k].extent <= begin + Total(items) && items[k].extent > 0
  {
    PlaceInside(items, k);
  }

  /** The bins give good places. */
  lemma BinsGiveGoodPlaces(heap: Heap, begin: nat, owners: seq<Id>, end: nat)
    requires Bounded(heap, begin) && OwnersOk(heap, owners) && end == begin + Total(ItemsOf(heap, owners))
    ensures GoodPlaces(heap, owners, PlacesOf(ItemsOf(heap, owners), begin), begin, end)
  {
    ItemsValid(heap, owners);
    TotalBounded(heap, begin, owners);
    GoodItems(heap, begin, owners, end);
  }

  lemma GoodItems(heap: Heap, begin: nat, owners: seq<Id>, end: nat)
    requires OwnersOk(heap, owners) && ValidItems(ItemsOf(heap, owners)) && begin % 8 == 0
    requires end == begin + Total(ItemsOf(heap, owners)) <= TWO32
    ensures GoodPlaces(heap, owners, PlacesOf(ItemsOf(heap, owners), begin), begin, end)
  {
    var items := ItemsOf(heap, owners);
    var places := PlacesOf(items, begin);
    forall k | 0 <= k < |owners| ensures GoodPlace(heap, owners[k], places[k], begin, end) {
      ItemAligned(items, begin, k);
      ItemInside(items, begin, k);
    }
    forall i, j | 0 <= i < j < |owners| ensures Separate(heap, owners, places, i, j) {
      ItemsSeparate(heap, begin, owners, i, j);
    }
    forall i, j | 0 <= i < |owners| && 0 <= j < |owners| ensures Ranked(heap, owners, places, i, j) {
      ItemsRanked(heap, begin, owners, i, j);
    }
    forall b | begin <= b < end ensures CoveredPlace(heap, owners, places, b) {
      ItemsCover(heap, begin, owners, b);
    }
  }

  lemma ItemsSeparate(heap: Heap, begin: nat, owners: seq<Id>, i: nat, j: nat)
    requires AllIn(heap, owners) && i < j < |owners|
    ensures Separate(heap, owners, PlacesOf(ItemsOf(heap, owners), begin), i, j)
  {
    PlacesDisjoint(ItemsOf(heap, owners), i, j);
  }

  lemma ItemsRanked(heap: Heap, begin: nat, owners: seq<Id>, i: nat, j: nat)
    requires AllIn(heap, owners) && i < |owners| && j < |owners|
    ensures Ranked(heap, owners, PlacesOf(ItemsOf(heap, owners), begin), i, j)
  {
    var items := ItemsOf(heap, owners);
    if items[i].bin < items[j].bin {
      BinsInOrder(items, i, j);
    }
  }

  lemma ItemsCover(heap: Heap, begin: nat, owners: seq<Id>, b: nat)
    requires AllIn(heap, owners) && ValidItems(ItemsOf(heap, owners))
    requires begin <= b < begin + Total(ItemsOf(heap, owners))
    ensures CoveredPlace(heap, owners, PlacesOf(ItemsOf(heap, owners), begin), b)
  {
    var items := ItemsOf(heap, owners);
    var k := Covered(items, b - begin);
    assert items[k] == ItemOf(heap, owners[k]);
    assert Contains(heap, owners, PlacesOf(items, begin), k, b);
  }

  // ----- the invariant of the second pass -----

  /** The first `i` objects of the order have offsets, the others still slots. */
  ghost predicate Unbinned(items: seq<Item>, begin: nat, order: seq<Id>, first: Words, words: Words, i: nat) {
    && words.Keys == first.Keys && i <= |order|
    && (forall j {:trigger IsUnbinned(items, begin, first, words, order[j])} | 0 <= j < i ::
          IsUnbinned(items, begin, first, words, order[j]))
    && (forall j {:trigger KeepsWord(first, words, order[j])} | i <= j < |order| :: KeepsWord(first, words, order[j]))
  }

  ghost predicate IsUnbinned(items: seq<Item>, begin: nat, first: Words, words: Words, o: Id) {
    && o in first && o in words && SlotOffset(items, begin, Forwarded(first[o])) < TWO32
    && words[o] == Forward(SlotOffset(items, begin, Forwarded(first[o])))
  }

  ghost predicate KeepsWord(first: Words, words: Words, o: Id) {
    o in first && o in words && words[o] == first[o]
  }

  lemma UnbinStep(items: seq<Item>, begin: nat, order: seq<Id>, first: Words, words: Words, i: nat, offset: Word32)
    requires Distinct(order) && i < |order| && Unbinned(items, begin, order, first, words, i)
    requires order[i] in words && offset == SlotOffset(items, begin, Forwarded(first[order[i]]))
    ensures Unbinned(items, begin, order, first, words[order[i] := Forward(offset)], i + 1)
  {
    var o := order[i];
    var after := words[o := Forward(offset)];
    forall j | 0 <= j < i + 1 ensures IsUnbinned(items, begin, first, after, order[j]) {
      if j < i {
        assert IsUnbinned(items, begin, first, words, order[j]);
      }
    }
    forall j | i + 1 <= j < |order| ensures KeepsWord(first, after, order[j]) {
      assert KeepsWord(first, words, order[j]);
      if order[j] == o {
        DistinctIndex(order, i, j);
      }
    }
  }

  /** At the end every object has the place of the owner that stands for it. */
  lemma UnbinnedIsPlaced(heap: Heap, begin: nat, owners: seq<Id>, first: Words, words: Words, o: Id)
    requires Bounded(heap, begin) && AllIn(heap, owners) && SlotsOk(heap, first, owners, SlotsOf(heap, owners))
    requires Aligned(SlotsOf(heap, owners)) && Assigned(first, o) && o in heap.objects
    requires IsUnbinned(ItemsOf(heap, owners), begin, first, words, o)
    ensures exists k :: PlacedAs(heap, owners, PlacesOf(ItemsOf(heap, owners), begin), words, o, k)
  {
    var k := ReadsBack(heap, first, owners, SlotsOf(heap, owners), o);
    SlotOffsetIsPlace(heap, begin, owners, k);
    assert PlacedAs(heap, owners, PlacesOf(ItemsOf(heap, owners), begin), words, o, k);
  }

  /** Different slots stand for different offsets. */
  ghost predicate Spread(items: seq<Item>, begin: nat, slots: seq<Word32>) {
    forall v, w {:trigger SameSlot(items, begin, v, w)} | v in slots && w in slots :: SameSlot(items, begin, v, w)
  }

  ghost predicate SameSlot(items: seq<Item>, begin: nat, v: Word32, w: Word32) {
    SlotOffset(items, begin, v) == SlotOffset(items, begin, w) ==> v == w
  }

  /** Every saved hash code is still in the map or has moved to its offset, and no offset has two. */
  ghost predicate Moved(items: seq<Item>, begin: nat, slots: seq<Word32>, all: map<Word32, Word32>,
                        hashes: map<Word32, Word32>, saved: seq<(nat, Word32)>) {
    && Spread(items, begin, slots)
    && (forall w | w in hashes :: w in all) && (forall w | w in all :: w in slots)
    && (forall w {:trigger Accounted(items, begin, all, hashes, saved, w)} | w in all ::
          Accounted(items, begin, all, hashes, saved, w))
    && (forall e {:trigger Comes(items, begin, all, hashes, e)} | e in saved :: Comes(items, begin, all, hashes, e))
    && OneEach(saved)
  }

  ghost predicate OneEach(saved: seq<(nat, Word32)>) {
    forall i, j {:trigger OffsetsDiffer(saved, i, j)} | 0 <= i < j < |saved| :: OffsetsDiffer(saved, i, j)
  }

  ghost predicate OffsetsDiffer(saved: seq<(nat, Word32)>, i: nat, j: nat)
    requires i < |saved| && j < |saved|
  {
    saved[i].0 != saved[j].0
  }

  ghost predicate Accounted(items: seq<Item>, begin: nat, all: map<Word32, Word32>, hashes: map<Word32, Word32>,
                            saved: seq<(nat, Word32)>, w: Word32)
    requires w in all
  {
    if w in hashes then hashes[w] == all[w] else (SlotOffset(items, begin, w), all[w]) in saved
  }

  ghost predicate Comes(items: seq<Item>, begin: nat, all: map<Word32, Word32>, hashes: map<Word32, Word32>,
                        e: (nat, Word32)) {
    exists w :: SavedFor(items, begin, all, hashes, w, e)
  }

  ghost predicate SavedFor(items: seq<Item>, begin: nat, all: map<Word32, Word32>, hashes: map<Word32, Word32>,
                           w: Word32, e: (nat, Word32)) {
    w in all && w !in hashes && e == (SlotOffset(items, begin, w), all[w])
  }

  /** `SetImageOffset` on the saved hash codes. */
  function LeftHashes(hashes: map<Word32, Word32>, slot: Word32): map<Word32, Word32> {
    if slot in hashes then hashes - {slot} else hashes
  }

  function MoreSaved(hashes: map<Word32, Word32>, saved: seq<(nat, Word32)>, slot: Word32, offset: nat):
      seq<(nat, Word32)> {
    if slot in hashes then saved + [(offset, hashes[slot])] else saved
  }

  lemma MovedStep(items: seq<Item>, begin: nat, slots: seq<Word32>, all: map<Word32, Word32>,
                  hashes: map<Word32, Word32>, saved: seq<(nat, Word32)>, slot: Word32)
    requires Moved(items, begin, slots, all, hashes, saved)
    ensures Moved(items, begin, slots, all, LeftHashes(hashes, slot),
                  MoreSaved(hashes, saved, slot, SlotOffset(items, begin, slot)))
  {
    if slot in hashes {
      assert Accounted(items, begin, all, hashes, saved, slot);
      AccountedStep(items, begin, all, hashes, saved, slot);
      ComesStep(items, begin, slots, all, hashes, saved, slot);
    }
  }

  /** The offset of the next entry is new. */
  lemma ComesStep(items: seq<Item>, begin: nat, slots: seq<Word32>, all: map<Word32, Word32>,
                  hashes: map<Word32, Word32>, saved: seq<(nat, Word32)>, slot: Word32)
    requires Spread(items, begin, slots) && slot in hashes && slot in all && (forall w | w in all :: w in slots)
    requires forall e {:trigger Comes(items, begin, all, hashes, e)} | e in saved :: Comes(items, begin, all, hashes, e)
    requires OneEach(saved)
    ensures var more := saved + [(SlotOffset(items, begin, slot), all[slot])];
            && (forall e {:trigger Comes(items, begin, all, hashes - {slot}, e)} | e in more ::
                  Comes(items, begin, all, hashes - {slot}, e))
            && OneEach(more)
  {
    var entry := (SlotOffset(items, begin, slot), all[slot]);
    var more := saved + [entry];
    forall e | e in more ensures Comes(items, begin, all, hashes - {slot}, e) && (e in saved ==> e.0 != entry.0) {
      if e in saved {
        assert Comes(items, begin, all, hashes, e);
        var w :| SavedFor(items, begin, all, hashes, w, e);
        assert SavedFor(items, begin, all, hashes - {slot}, w, e);
        assert SameSlot(items, begin, w, slot);
      } else {
        assert SavedFor(items, begin, all, hashes - {slot}, slot, entry);
      }
    }
    forall i, j | 0 <= i < j < |more| ensures OffsetsDiffer(more, i, j) {
      assert more[i] == saved[i] && saved[i] in more;
      if j < |saved| {
        assert OffsetsDiffer(saved, i, j);
      }
    }
  }

  lemma AccountedStep(items: seq<Item>, begin: nat, all: map<Word32, Word32>, hashes: map<Word32, Word32>,
                      saved: seq<(nat, Word32)>, slot: Word32)
    requires forall w {:trigger Accounted(items, begin, all, hashes, saved, w)} | w in all ::
               Accounted(items, begin, all, hashes, saved, w)
    requires slot in all
    ensures forall w | w in all ::
              Accounted(items, begin, all, hashes - {slot}, saved + [(SlotOffset(items, begin, slot), all[slot])], w)
  {
    forall w | w in all
      ensures Accounted(items, begin, all, hashes - {slot}, saved + [(SlotOffset(items, begin, slot), all[slot])], w)
    {
      assert Accounted(items, begin, all, hashes, saved, w);
    }
  }

  // ----- the saved hash codes at the end -----

  /** The offset of an object is the one its slot stands for. */
  ghost predicate OffsetFromSlot(items: seq<Item>, begin: nat, first: Words, words: Words, o: Id) {
    o in first && o in words && ImageOffset(words, o) == SlotOffset(items, begin, Forwarded(first[o]))
  }

  lemma UnbinnedOffset(heap: Heap, begin: nat, owners: seq<Id>, first: Words, words: Words, o: Id)
    requires Bounded(heap, begin) && AllIn(heap, owners) && SlotsOk(heap, first, owners, SlotsOf(heap, owners))
    requires Aligned(SlotsOf(heap, owners)) && Assigned(first, o)
    requires IsUnbinned(ItemsOf(heap, owners), begin, first, words, o)
    ensures OffsetFromSlot(ItemsOf(heap, owners), begin, first, words, o)
  {
    var k := ReadsBack(heap, first, owners, SlotsOf(heap, owners), o);
    SlotOffsetIsPlace(heap, begin, owners, k);
    ItemsValid(heap, owners);
    ItemAligned(ItemsOf(heap, owners), begin, k);
    ForwardObject(SlotOffset(ItemsOf(heap, owners), begin, Forwarded(first[o])));
  }

  /** An entry holds the hash code of the last object at its offset that had one. */
  ghost predicate EntryOk(initial: Words, words: Words, settled: seq<Id>, e: (nat, Word32)) {
    e.0 < TWO32 &&
    var last := LastHashed(initial, words, settled, e.0);
    last.Somebody? && e.1 == HashOf(initial[last.id])
  }

  ghost predicate HasSaved(words: Words, saved: seq<(nat, Word32)>, o: Id) {
    o in words && exists hash :: (ImageOffset(words, o), hash) in saved
  }

  /** Every object that had a hash code finds one saved for its offset. Each offset has one entry at most:
      the hash code of the last object there that had one. */
  ghost predicate HashesKept(initial: Words, words: Words, settled: seq<Id>, saved: seq<(nat, Word32)>) {
    && (forall o {:trigger HasSaved(words, saved, o)} | o in initial && State(initial[o]) == HashCode ::
          HasSaved(words, saved, o))
    && (forall e {:trigger EntryOk(initial, words, settled, e)} | e in saved :: EntryOk(initial, words, settled, e))
    && OneEach(saved)
  }

  /** The second pass takes every word to its offset and keeps apart what was apart. */
  ghost predicate Follows(items: seq<Item>, begin: nat, slots: seq<Word32>, first: Words, words: Words) {
    forall o {:trigger OffsetFromSlot(items, begin, first, words, o)} | o in first ::
      OffsetFromSlot(items, begin, first, words, o) && Forwarded(first[o]) in slots
  }

  lemma {:induction false} LastHashedMoves(items: seq<Item>, begin: nat, slots: seq<Word32>, initial: Words,
                                           first: Words, words: Words, settled: seq<Id>, slot: Word32, offset: Word32)
    requires Spread(items, begin, slots) && Follows(items, begin, slots, first, words) && slot in slots
    requires offset == SlotOffset(items, begin, slot) && forall o | o in settled :: o in first
    ensures LastHashed(initial, words, settled, offset) == LastHashed(initial, first, settled, slot)
  {
    if settled != [] {
      var o, rest := settled[|settled| - 1], settled[..|settled| - 1];
      assert o in settled && OffsetFromSlot(items, begin, first, words, o);
      assert SameSlot(items, begin, Forwarded(first[o]), slot);
      assert forall p | p in rest :: p in settled;
      LastHashedMoves(items, begin, slots, initial, first, words, rest, slot, offset);
    }
  }

  lemma HashesAreKept(items: seq<Item>, begin: nat, slots: seq<Word32>, initial: Words, first: Words, words: Words,
                      settled: seq<Id>, all: map<Word32, Word32>, hashes: map<Word32, Word32>,
                      saved: seq<(nat, Word32)>)
    requires initial.Keys == first.Keys && HashesOk(initial, first, settled, all)
    requires Moved(items, begin, slots, all, hashes, saved) && Follows(items, begin, slots, first, words)
    requires forall o {:trigger Assigned(first, o)} | o in first :: Assigned(first, o)
    requires forall o {:trigger SlotLeft(first, hashes, o)} | o in first :: SlotLeft(first, hashes, o)
    ensures hashes == map[] && HashesKept(initial, words, settled, saved)
  {
    forall w | w in all ensures w !in hashes {
      assert SavedIs(initial, first, settled, all, w);
      assert SlotLeft(first, hashes, LastHashed(initial, first, settled, w).id);
    }
    forall o | o in initial && State(initial[o]) == HashCode ensures HasSaved(words, saved, o) {
      HashIsSaved(items, begin, initial, first, words, settled, all, hashes, saved, o);
    }
    forall e | e in saved ensures EntryOk(initial, words, settled, e) {
      assert Comes(items, begin, all, hashes, e);
      var w :| SavedFor(items, begin, all, hashes, w, e);
      EntryIsLast(items, begin, slots, initial, first, words, settled, all, w, e);
    }
  }

  lemma HashIsSaved(items: seq<Item>, begin: nat, initial: Words, first: Words, words: Words, settled: seq<Id>,
                    all: map<Word32, Word32>, hashes: map<Word32, Word32>, saved: seq<(nat, Word32)>, o: Id)
    requires HashesOk(initial, first, settled, all) && OffsetFromSlot(items, begin, first, words, o)
    requires Assigned(first, o) && o in initial && State(initial[o]) == HashCode && SlotLeft(first, hashes, o)
    requires forall w {:trigger Accounted(items, begin, all, hashes, saved, w)} | w in all ::
               Accounted(items, begin, all, hashes, saved, w)
    ensures HasSaved(words, saved, o)
  {
    var w := Forwarded(first[o]);
    assert o in settled;
    SomebodyLeads(initial, first, settled, o, w);
    assert SavedIs(initial, first, settled, all, w);
    assert Accounted(items, begin, all, hashes, saved, w);
  }

  lemma EntryIsLast(items: seq<Item>, begin: nat, slots: seq<Word32>, initial: Words, first: Words, words: Words,
                    settled: seq<Id>, all: map<Word32, Word32>, w: Word32, e: (nat, Word32))
    requires HashesOk(initial, first, settled, all) && Spread(items, begin, slots)
    requires Follows(items, begin, slots, first, words)
    requires w in all && w in slots && e == (SlotOffset(items, begin, w), all[w])
    ensures EntryOk(initial, words, settled, e)
  {
    assert SavedIs(initial, first, settled, all, w);
    var l := LastHashed(initial, first, settled, w).id;
    assert OffsetFromSlot(items, begin, first, words, l);
    assert forall o | o in settled :: o in first;
    LastHashedMoves(items, begin, slots, initial, first, words, settled, w, e.0);
  }

  // ----- whose hash code survives -----

  /** Every object that had a hash code finds its own. */
  ghost predicate AllOwn(initial: Words, words: Words, saved: seq<(nat, Word32)>) {
    forall o {:trigger FindsOwn(initial, words, saved, o)} | o in initial && State(initial[o]) == HashCode ::
      FindsOwn(initial, words, saved, o)
  }

  ghost predicate FindsOwn(initial: Words, words: Words, saved: seq<(nat, Word32)>, o: Id) {
    o in initial && o in words && (ImageOffset(words, o), HashOf(initial[o])) in saved
  }

  /** Strings that share a place had the same hash code, if they had one. */
  ghost predicate SharersAgree(heap: Heap, initial: Words) {
    forall p, q {:trigger Agree(heap, initial, p, q)} | p in heap.objects && q in heap.objects :: Agree(heap, initial, p, q)
  }

  ghost predicate Agree(heap: Heap, initial: Words, p: Id, q: Id)
    requires p in heap.objects && q in heap.objects
  {
    Hashed(initial, p) && Hashed(initial, q) && Canonical(heap, p) == Canonical(heap, q) ==>
      HashOf(initial[p]) == HashOf(initial[q])
  }

  ghost predicate Hashed(initial: Words, o: Id) {
    o in initial && State(initial[o]) == HashCode
  }

  lemma OneEntry(saved: seq<(nat, Word32)>, offset: nat, g: Word32, h: Word32)
    requires OneEach(saved) && (offset, g) in saved && (offset, h) in saved
    ensures g == h
  {
    var i :| 0 <= i < |saved| && saved[i] == (offset, g);
    var j :| 0 <= j < |saved| && saved[j] == (offset, h);
    assert i < j ==> OffsetsDiffer(saved, i, j);
    assert j < i ==> OffsetsDiffer(saved, j, i);
  }

  /** Objects at one offset stand for the same string. */
  lemma SameOffset(heap: Heap, words: Words, begin: nat, end: nat, p: Id, q: Id)
    requires ValidHeap(heap) && LaidOut(heap, words, begin, end) && p in heap.objects && q in heap.objects
    ensures ImageOffset(words, p) == ImageOffset(words, q) <==> Canonical(heap, p) == Canonical(heap, q)
  {
    var c, d := Canonical(heap, p), Canonical(heap, q);
    assert InImage(heap, words, begin, end, p) && InImage(heap, words, begin, end, q);
    CanonicalIdempotent(heap, p);
    CanonicalIdempotent(heap, q);
    if c != d {
      assert Apart(heap, words, c, d);
      assert ValidObject(heap, heap.objects[c]) && ValidObject(heap, heap.objects[d]);
    }
  }

  /** Every hash code survives if and only if sharing strings agree in theirs. */
  lemma OwnHashes(heap: Heap, initial: Words, words: Words, settled: seq<Id>, saved: seq<(nat, Word32)>, begin: nat,
                  end: nat)
    requires ValidHeap(heap) && initial.Keys == heap.objects.Keys && LaidOut(heap, words, begin, end)
    requires HashesKept(initial, words, settled, saved)
    ensures AllOwn(initial, words, saved) <==> SharersAgree(heap, initial)
  {
    if AllOwn(initial, words, saved) {
      forall p, q | p in heap.objects && q in heap.objects ensures Agree(heap, initial, p, q) {
        OwnAgree(heap, initial, words, saved, begin, end, p, q);
      }
    }
    if SharersAgree(heap, initial) {
      forall o | o in initial && State(initial[o]) == HashCode ensures FindsOwn(initial, words, saved, o) {
        AgreeOwn(heap, initial, words, settled, saved, begin, end, o);
      }
    }
  }

  lemma OwnAgree(heap: Heap, initial: Words, words: Words, saved: seq<(nat, Word32)>, begin: nat, end: nat, p: Id,
                 q: Id)
    requires ValidHeap(heap) && LaidOut(heap, words, begin, end) && p in heap.objects && q in heap.objects
    requires AllOwn(initial, words, saved) && OneEach(saved)
    ensures Agree(heap, initial, p, q)
  {
    SameOffset(heap, words, begin, end, p, q);
    if Hashed(initial, p) && Hashed(initial, q) && Canonical(heap, p) == Canonical(heap, q) {
      assert FindsOwn(initial, words, saved, p) && FindsOwn(initial, words, saved, q);
      OneEntry(saved, ImageOffset(words, p), HashOf(initial[p]), HashOf(initial[q]));
    }
  }

  lemma AgreeOwn(heap: Heap, initial: Words, words: Words, settled: seq<Id>, saved: seq<(nat, Word32)>, begin: nat,
                 end: nat, o: Id)
    requires ValidHeap(heap) && initial.Keys == heap.objects.Keys && LaidOut(heap, words, begin, end)
    requires HashesKept(initial, words, settled, saved) && SharersAgree(heap, initial)
    requires o in initial && State(initial[o]) == HashCode
    ensures FindsOwn(initial, words, saved, o)
  {
    assert HasSaved(words, saved, o);
    var hash :| (ImageOffset(words, o), hash) in saved;
    assert EntryOk(initial, words, settled, (ImageOffset(words, o), hash));
    var last := LastHashed(initial, words, settled, ImageOffset(words, o)).id;
    SameOffset(heap, words, begin, end, o, last);
    assert Agree(heap, initial, o, last);
  }

  /** Nothing is saved any more under the slot of `o`. */
  ghost predicate SlotLeft(first: Words, hashes: map<Word32, Word32>, o: Id) {
    o in first && Forwarded(first[o]) !in hashes
  }

  ghost predicate AllAssigned(heap: Heap, words: Words) {
    forall o {:trigger Assigned(words, o)} | o in heap.objects :: Assigned(words, o)
  }

  ghost predicate AssignedUpTo(order: seq<Id>, words: Words, i: nat) {
    i <= |order| && forall j {:trigger Assigned(words, order[j])} | 0 <= j < i :: Assigned(words, order[j])
  }

  lemma AssignedMore(order: seq<Id>, before: Words, after: Words, i: nat)
    requires i < |order| && AssignedUpTo(order, before, i) && Extends(before, after) && Assigned(after, order[i])
    ensures AssignedUpTo(order, after, i + 1)
  {
    forall j | 0 <= j < i ensures Assigned(after, order[j]) {
      assert Assigned(before, order[j]);
      assert after[order[j]] == before[order[j]];
    }
  }

  lemma AssignedAll(heap: Heap, words: Words)
    requires ValidHeap(heap) && AssignedUpTo(heap.order, words, |heap.order|)
    ensures AllAssigned(heap, words)
  {
    forall o | o in heap.objects ensures Assigned(words, o) {
      assert o in heap.order;
      var j :| 0 <= j < |heap.order| && heap.order[j] == o;
      assert Assigned(words, heap.order[j]);
    }
  }

  /** The sum of the bin sizes does not overflow. */
  lemma {:induction false} SumIsExact(heap: Heap, owners: seq<Id>, sizes: seq<nat>, b: nat)
    requires AllIn(heap, owners) && AreSizes(heap, owners, sizes) && b <= BINS
    requires ValidItems(ItemsOf(heap, owners)) && Total(ItemsOf(heap, owners)) < TWO31
    ensures AsInt(SumTo(sizes, b)) % TWO64 == Base(ItemsOf(heap, owners), b)
  {
    var items := ItemsOf(heap, owners);
    forall c | 0 <= c < |sizes| ensures sizes[c] == BinEnd(items, |items|, c) {
    }
    SumIsBase(items, sizes, b);
    BaseGrows(items, b, BINS);
    BaseIsTotal(items);
    SumExact(SumTo(sizes, b));
  }

  lemma SlotFits(heap: Heap, begin: nat, owners: seq<Id>, first: Words, o: Id)
    requires Bounded(heap, begin) && AllIn(heap, owners) && SlotsOk(heap, first, owners, SlotsOf(heap, owners))
    requires Aligned(SlotsOf(heap, owners)) && Assigned(first, o)
    ensures SlotOffset(ItemsOf(heap, owners), begin, Forwarded(first[o])) < TWO32
  {
    var k := ReadsBack(heap, first, owners, SlotsOf(heap, owners), o);
    SlotOffsetIsPlace(heap, begin, owners, k);
    ItemsValid(heap, owners);
    TotalBounded(heap, begin, owners);
    ItemInside(ItemsOf(heap, owners), begin, k);
  }

  /** The state of the second pass after `i` objects. */
  ghost predicate SecondPass(heap: Heap, begin: nat, owners: seq<Id>, first: Words, all: map<Word32, Word32>,
                             words: Words, hashes: map<Word32, Word32>, saved: seq<(nat, Word32)>, i: nat)
  {
    && AllIn(heap, owners) && Unbinned(ItemsOf(heap, owners), begin, heap.order, first, words, i)
    && Moved(ItemsOf(heap, owners), begin, SlotsOf(heap, owners), all, hashes, saved)
    && SlotsLeft(heap.order, first, hashes, i)
  }

  ghost predicate SlotsLeft(order: seq<Id>, first: Words, hashes: map<Word32, Word32>, i: nat) {
    i <= |order| && forall j {:trigger SlotLeft(first, hashes, order[j])} | 0 <= j < i :: SlotLeft(first, hashes, order[j])
  }

  /** What the first pass leaves behind. */
  ghost predicate FirstDone(heap: Heap, begin: nat, owners: seq<Id>, first: Words) {
    && Bounded(heap, begin) && OwnersOk(heap, owners) && SlotsOk(heap, first, owners, SlotsOf(heap, owners))
    && Aligned(SlotsOf(heap, owners)) && AllAssigned(heap, first)
  }

  lemma SecondStart(heap: Heap, begin: nat, owners: seq<Id>, first: Words, all: map<Word32, Word32>)
    requires FirstDone(heap, begin, owners, first) && forall w | w in all :: w in SlotsOf(heap, owners)
    ensures SecondPass(heap, begin, owners, first, all, first, all, [], 0)
  {
    SlotsSpread(heap, begin, owners);
    forall j | 0 <= j < |heap.order| ensures KeepsWord(first, first, heap.order[j]) {
      assert Assigned(first, heap.order[j]);
    }
    forall w | w in all ensures Accounted(ItemsOf(heap, owners), begin, all, all, [], w) {
    }
  }

  /** Owners have different places, so their slots stand for different offsets. */
  lemma SlotsSpread(heap: Heap, begin: nat, owners: seq<Id>)
    requires Bounded(heap, begin) && OwnersOk(heap, owners)
    ensures Spread(ItemsOf(heap, owners), begin, SlotsOf(heap, owners))
  {
    var items, slots := ItemsOf(heap, owners), SlotsOf(heap, owners);
    forall v, w | v in slots && w in slots ensures SameSlot(items, begin, v, w) {
      var j :| 0 <= j < |slots| && slots[j] == v;
      var k :| 0 <= k < |slots| && slots[k] == w;
      SlotsDiffer(heap, begin, owners, j, k);
    }
  }

  lemma SlotsDiffer(heap: Heap, begin: nat, owners: seq<Id>, j: nat, k: nat)
    requires Bounded(heap, begin) && OwnersOk(heap, owners) && j < |owners| && k < |owners|
    ensures var items, slots := ItemsOf(heap, owners), SlotsOf(heap, owners);
            SlotOffset(items, begin, slots[j]) == SlotOffset(items, begin, slots[k]) ==> j == k
  {
    var items := ItemsOf(heap, owners);
    ItemsValid(heap, owners);
    SlotOffsetIsPlace(heap, begin, owners, j);
    SlotOffsetIsPlace(heap, begin, owners, k);
    if j < k {
      PlacesDisjoint(items, j, k);
    } else if k < j {
      PlacesDisjoint(items, k, j);
    }
  }

  /** Hash codes are saved under slots of owners only. */
  lemma SavedUnderSlots(heap: Heap, words: Words, owners: seq<Id>, slots: seq<Word32>, initial: Words, settled: seq<Id>,
                        all: map<Word32, Word32>)
    requires SlotsOk(heap, words, owners, slots) && Aligned(slots) && HashesOk(initial, words, settled, all)
    ensures forall w | w in all :: w in slots
  {
    forall w | w in all ensures w in slots {
      assert SavedIs(initial, words, settled, all, w);
      var o := LastHashed(initial, words, settled, w).id;
      assert o in settled;
      var k := ReadsBack(heap, words, owners, slots, o);
    }
  }

  lemma LeftMore(order: seq<Id>, first: Words, hashes: map<Word32, Word32>, slot: Word32, i: nat)
    requires SlotsLeft(order, first, hashes, i) && i < |order| && order[i] in first && slot == Forwarded(first[order[i]])
    ensures SlotsLeft(order, first, LeftHashes(hashes, slot), i + 1)
  {
    forall j | 0 <= j < i + 1 ensures SlotLeft(first, LeftHashes(hashes, slot), order[j]) {
      if j < i {
        assert SlotLeft(first, hashes, order[j]);
      }
    }
  }

  /** What the second pass relies on. */
  ghost predicate Ready(heap: Heap, begin: nat, owners: seq<Id>, sizes: seq<nat>, first: Words) {
    && AllIn(heap, owners) && AreSizes(heap, owners, sizes) && ValidItems(ItemsOf(heap, owners))
    && Total(ItemsOf(heap, owners)) < TWO31 && Distinct(heap.order)
    && forall j {:trigger FitsWord(ItemsOf(heap, owners), begin, first, heap.order[j])} | 0 <= j < |heap.order| ::
         FitsWord(ItemsOf(heap, owners), begin, first, heap.order[j])
  }

  ghost predicate FitsWord(items: seq<Item>, begin: nat, first: Words, o: Id) {
    o in first && SlotOffset(items, begin, Forwarded(first[o])) < TWO32
  }

  lemma FirstIsReady(heap: Heap, begin: nat, owners: seq<Id>, sizes: seq<nat>, first: Words)
    requires FirstDone(heap, begin, owners, first) && AreSizes(heap, owners, sizes)
    ensures Ready(heap, begin, owners, sizes, first)
  {
    ItemsValid(heap, owners);
    TotalBounded(heap, begin, owners);
    forall j | 0 <= j < |heap.order| ensures FitsWord(ItemsOf(heap, owners), begin, first, heap.order[j]) {
      assert Assigned(first, heap.order[j]);
      SlotFits(heap, begin, owners, first, heap.order[j]);
    }
  }

  lemma SecondStep(heap: Heap, begin: nat, owners: seq<Id>, sizes: seq<nat>, first: Words, all: map<Word32, Word32>,
                   words: Words, hashes: map<Word32, Word32>, saved: seq<(nat, Word32)>, i: nat)
    requires Ready(heap, begin, owners, sizes, first) && i < |heap.order|
    requires SecondPass(heap, begin, owners, first, all, words, hashes, saved, i)
    ensures heap.order[i] in words
    ensures var slot := Forwarded(words[heap.order[i]]);
            var offset := SlotOffset(ItemsOf(heap, owners), begin, slot);
            && offset < TWO32
            && SecondPass(heap, begin, owners, first, all, words[heap.order[i] := Forward(offset)],
                          LeftHashes(hashes, slot), MoreSaved(hashes, saved, slot, offset), i + 1)
  {
    var o := heap.order[i];
    assert KeepsWord(first, words, heap.order[i]);
    assert FitsWord(ItemsOf(heap, owners), begin, first, heap.order[i]);
    var items, slot := ItemsOf(heap, owners), Forwarded(words[o]);
    UnbinStep(items, begin, heap.order, first, words, i, SlotOffset(items, begin, slot));
    MovedStep(items, begin, SlotsOf(heap, owners), all, hashes, saved, slot);
    LeftMore(heap.order, first, hashes, slot, i);
  }

  lemma SecondEnd(heap: Heap, begin: nat, owners: seq<Id>, initial: Words, first: Words, settled: seq<Id>,
                  all: map<Word32, Word32>, words: Words, hashes: map<Word32, Word32>, saved: seq<(nat, Word32)>,
                  end: nat)
    requires FirstDone(heap, begin, owners, first) && initial.Keys == first.Keys && HashesOk(initial, first, settled, all)
    requires SecondPass(heap, begin, owners, first, all, words, hashes, saved, |heap.order|)
    requires end == begin + Total(ItemsOf(heap, owners))
    ensures LaidOut(heap, words, begin, end)
    ensures hashes == map[] && HashesKept(initial, words, settled, saved)
  {
    UnbinnedIsLaidOut(heap, begin, owners, first, words, end);
    var items, slots := ItemsOf(heap, owners), SlotsOf(heap, owners);
    forall o | o in first
      ensures Assigned(first, o) && OffsetFromSlot(items, begin, first, words, o) && SlotLeft(first, hashes, o)
      ensures Forwarded(first[o]) in slots
    {
      assert Assigned(first, o);
      OrderFinds(items, begin, heap, first, words, o);
      UnbinnedOffset(heap, begin, owners, first, words, o);
      OrderLeft(heap, first, hashes, o);
      var k := ReadsBack(heap, first, owners, slots, o);
    }
    HashesAreKept(items, begin, slots, initial, first, words, settled, all, hashes, saved);
  }

  lemma OrderLeft(heap: Heap, first: Words, hashes: map<Word32, Word32>, o: Id)
    requires ValidHeap(heap) && o in heap.objects && SlotsLeft(heap.order, first, hashes, |heap.order|)
    ensures SlotLeft(first, hashes, o)
  {
    assert o in heap.order;
    var j :| 0 <= j < |heap.order| && heap.order[j] == o;
    assert SlotLeft(first, hashes, heap.order[j]);
  }

  lemma UnbinnedIsLaidOut(heap: Heap, begin: nat, owners: seq<Id>, first: Words, words: Words, end: nat)
    requires FirstDone(heap, begin, owners, first) && end == begin + Total(ItemsOf(heap, owners))
    requires Unbinned(ItemsOf(heap, owners), begin, heap.order, first, words, |heap.order|)
    ensures LaidOut(heap, words, begin, end)
  {
    UnbinnedAllPlaced(heap, begin, owners, first, words);
    BinsGiveGoodPlaces(heap, begin, owners, end);
    PlacedIsLaidOut(heap, owners, PlacesOf(ItemsOf(heap, owners), begin), begin, end, words);
  }

  lemma UnbinnedAllPlaced(heap: Heap, begin: nat, owners: seq<Id>, first: Words, words: Words)
    requires FirstDone(heap, begin, owners, first)
    requires Unbinned(ItemsOf(heap, owners), begin, heap.order, first, words, |heap.order|)
    ensures AllPlaced(heap, owners, PlacesOf(ItemsOf(heap, owners), begin), words)
  {
    forall o | o in heap.objects
      ensures exists k :: PlacedAs(heap, owners, PlacesOf(ItemsOf(heap, owners), begin), words, o, k)
    {
      assert Assigned(first, o);
      OrderFinds(ItemsOf(heap, owners), begin, heap, first, words, o);
      UnbinnedIsPlaced(heap, begin, owners, first, words, o);
    }
  }

  lemma OrderFinds(items: seq<Item>, begin: nat, heap: Heap, first: Words, words: Words, o: Id)
    requires ValidHeap(heap) && o in heap.objects
    requires Unbinned(items, begin, heap.order, first, words, |heap.order|)
    ensures IsUnbinned(items, begin, first, words, o)
  {
    assert o in heap.order;
    var j :| 0 <= j < |heap.order| && heap.order[j] == o;
    assert IsUnbinned(items, begin, first, words, heap.order[j]);
  }

  lemma StartPlaces(heap: Heap, begin: nat)
    ensures PlacesOk(heap, begin, [], seq(BINS, b => 0), begin)
  {
  }

  lemma StartWords(heap: Heap, initial: Words)
    requires Deflated(initial) && initial.Keys == heap.objects.Keys
    ensures WordsOk(heap, initial, initial, [], SlotsOf(heap, []), [], map[])
  {
    forall o | o in initial ensures !Assigned(initial, o) {
      assert Unowned(initial[o]);
    }
  }

  // ----- what a walk reaches -----

  ghost predicate Reached(words: Words, r: Reference) {
    r.To? ==> Assigned(words, r.id)
  }

  ghost predicate AllReached(words: Words, elements: seq<Reference>, n: nat) {
    n <= |elements| && forall j {:trigger Reached(words, elements[j])} | 0 <= j < n :: Reached(words, elements[j])
  }

  ghost predicate FieldReached(heap: Heap, words: Words, o: Id, first: nat, j: nat) {
    Reached(words, heap.field(o, first + 4 * j))
  }

  /** The first `n` references of a row of fields. */
  ghost predicate RowAssigned(heap: Heap, words: Words, o: Id, first: nat, n: nat) {
    forall j {:trigger FieldReached(heap, words, o, first, j)} | 0 <= j < n :: FieldReached(heap, words, o, first, j)
  }

  /** The instance fields that class `c` and its superclasses give to `o`. */
  ghost predicate FieldsAssigned(heap: Heap, words: Words, o: Id, c: Id)
    requires ValidHeap(heap) && c in heap.classes
    decreases heap.classes[c].depth
  {
    var info := heap.classes[c];
    assert ValidClass(heap, info);
    && (info.super.To? ==> FieldsAssigned(heap, words, o, info.super.id))
    && RowAssigned(heap, words, o, info.firstInstance, info.instances)
  }

  /** Everything the walk follows from `o` has a place: its fields, the elements of an array, and for a
      class object the row of static fields that its own class describes. */
  ghost predicate ReferentsAssigned(heap: Heap, words: Words, o: Id)
    requires ValidHeap(heap) && o in heap.objects
  {
    var object_ := heap.objects[o];
    assert ValidObject(heap, object_);
    var info := heap.classes[object_.klass];
    && FieldsAssigned(heap, words, o, object_.klass)
    && (object_.kind.ClassObject? ==> RowAssigned(heap, words, o, info.firstStatic, info.statics))
    && (object_.kind.ArrayObject? ==> AllReached(words, object_.kind.elements, |object_.kind.elements|))
  }

  lemma StaysAssigned(before: Words, after: Words, o: Id)
    requires Extends(before, after) && Assigned(before, o)
    ensures Assigned(after, o)
  {
    assert after[o] == before[o];
  }

  lemma StaysReached(before: Words, after: Words, r: Reference)
    requires Extends(before, after) && Reached(before, r)
    ensures Reached(after, r)
  {
    if r.To? {
      StaysAssigned(before, after, r.id);
    }
  }

  lemma RowStays(heap: Heap, before: Words, after: Words, o: Id, first: nat, n: nat)
    requires Extends(before, after) && RowAssigned(heap, before, o, first, n)
    ensures RowAssigned(heap, after, o, first, n)
  {
    forall j | 0 <= j < n ensures FieldReached(heap, after, o, first, j) {
      assert FieldReached(heap, before, o, first, j);
      StaysReached(before, after, heap.field(o, first + 4 * j));
    }
  }

  lemma RowMore(heap: Heap, before: Words, after: Words, o: Id, first: nat, n: nat, offset: nat)
    requires Extends(before, after) && RowAssigned(heap, before, o, first, n)
    requires offset == first + 4 * n && Reached(after, heap.field(o, offset))
    ensures RowAssigned(heap, after, o, first, n + 1)
  {
    RowStays(heap, before, after, o, first, n);
    assert FieldReached(heap, after, o, first, n);
  }

  lemma {:induction false} FieldsStay(heap: Heap, before: Words, after: Words, o: Id, c: Id)
    requires ValidHeap(heap) && c in heap.classes && Extends(before, after) && FieldsAssigned(heap, before, o, c)
    ensures FieldsAssigned(heap, after, o, c)
    decreases heap.classes[c].depth
  {
    var info := heap.classes[c];
    assert ValidClass(heap, info);
    if info.super.To? {
      FieldsStay(heap, before, after, o, info.super.id);
    }
    RowStays(heap, before, after, o, info.firstInstance, info.instances);
  }

  lemma ReachedMore(before: Words, after: Words, elements: seq<Reference>, n: nat)
    requires Extends(before, after) && n < |elements| && AllReached(before, elements, n) && Reached(after, elements[n])
    ensures AllReached(after, elements, n + 1)
  {
    forall j | 0 <= j < n ensures Reached(after, elements[j]) {
      assert Reached(before, elements[j]);
      StaysReached(before, after, elements[j]);
    }
  }

  // ----- what a walk leaves alone -----

  /** A marking of objects that is closed under what the walk follows: with an object, its interned string
      and everything it refers to is marked. Marked objects are those with a place in `bound`. */
  ghost predicate Closed(heap: Heap, bound: Words)
    requires ValidHeap(heap)
  {
    forall o {:trigger ClosedAt(heap, bound, o)} | o in heap.objects && Assigned(bound, o) :: ClosedAt(heap, bound, o)
  }

  ghost predicate ClosedAt(heap: Heap, bound: Words, o: Id)
    requires ValidHeap(heap) && o in heap.objects
  {
    Assigned(bound, Canonical(heap, o)) && ReferentsAssigned(heap, bound, o)
  }

  /** Only marked objects have got a place. */
  ghost predicate Within(before: Words, after: Words, bound: Words) {
    forall o {:trigger Assigned(after, o)} | Assigned(after, o) :: Assigned(before, o) || Assigned(bound, o)
  }

  lemma WithinThen(a: Words, b: Words, c: Words, bound: Words)
    requires Within(a, b, bound) && Within(b, c, bound)
    ensures Within(a, c, bound)
  {
    forall o | Assigned(c, o) ensures Assigned(a, o) || Assigned(bound, o) {
      if Assigned(b, o) {
      }
    }
  }

  /** Everything is marked. */
  ghost function Everything(heap: Heap): (bound: Words)
    ensures bound.Keys == heap.objects.Keys && forall o | o in heap.objects :: Assigned(bound, o)
  {
    ForwardRoundTrip(0);
    map o | o in heap.objects :: Forward(0)
  }

  lemma {:induction false} FieldsMarked(heap: Heap, bound: Words, o: Id, c: Id)
    requires ValidHeap(heap) && c in heap.classes && forall p | p in heap.objects :: Assigned(bound, p)
    ensures FieldsAssigned(heap, bound, o, c)
    decreases heap.classes[c].depth
  {
    var info := heap.classes[c];
    assert ValidClass(heap, info);
    if info.super.To? {
      FieldsMarked(heap, bound, o, info.super.id);
    }
    RowMarked(heap, bound, o, info.firstInstance, info.instances);
  }

  lemma RowMarked(heap: Heap, bound: Words, o: Id, first: nat, n: nat)
    requires ValidHeap(heap) && forall p | p in heap.objects :: Assigned(bound, p)
    ensures RowAssigned(heap, bound, o, first, n)
  {
    forall j | 0 <= j < n ensures FieldReached(heap, bound, o, first, j) {
      assert InHeap(heap, heap.field(o, first + 4 * j));
    }
  }

  lemma ElementsMarked(heap: Heap, bound: Words, kind: Kind)
    requires forall p | p in heap.objects :: Assigned(bound, p)
    requires kind.ArrayObject? ==> forall r | r in kind.elements :: InHeap(heap, r)
    ensures kind.ArrayObject? ==> AllReached(bound, kind.elements, |kind.elements|)
  {
    if kind.ArrayObject? {
      forall j | 0 <= j < |kind.elements| ensures Reached(bound, kind.elements[j]) {
        assert kind.elements[j] in kind.elements;
      }
    }
  }

  lemma EverythingClosed(heap: Heap)
    requires ValidHeap(heap)
    ensures Closed(heap, Everything(heap))
  {
    var bound := Everything(heap);
    forall o | o in heap.objects && Assigned(bound, o) ensures ClosedAt(heap, bound, o) {
      var object_ := heap.objects[o];
      assert ValidObject(heap, object_);
      CanonicalIdempotent(heap, o);
      FieldsMarked(heap, bound, o, object_.klass);
      ElementsMarked(heap, bound, object_.kind);
      RowMarked(heap, bound, o, heap.classes[object_.klass].firstStatic, heap.classes[object_.klass].statics);
    }
  }

  // ----- the writer -----

  class ImageWriter {
    const heap: Heap
    ghost const initial: Words
    var lockWords: Words
    var binSlotSizes: seq<nat>
    var imageEnd: nat
    var objectsBegin: nat
    var savedHashesMap: map<Word32, Word32>
    var savedHashes: seq<(nat, Word32)>
    ghost var owners: seq<Id>
    ghost var settled: seq<Id>

    constructor (heap: Heap, lockWords: Words)
      ensures this.heap == heap && initial == this.lockWords == lockWords
      ensures Fresh()
    {
      this.heap, initial, this.lockWords := heap, lockWords, lockWords;
      binSlotSizes := seq(BINS, b => 0);
      imageEnd, objectsBegin := 0, 0;
      savedHashesMap, savedHashes, owners, settled := map[], [], [], [];
    }

    /** Nothing is laid out yet. */
    ghost predicate Fresh()
      reads this
    {
      && lockWords == initial && imageEnd == 0 && owners == [] && settled == []
      && binSlotSizes == seq(BINS, b => 0) && savedHashesMap == map[] && savedHashes == []
    }

    /** The invariant of the first pass, for objects that begin at `begin`. */
    ghost predicate Laid(begin: nat)
      reads this
    {
      && Bounded(heap, begin)
      && PlacesOk(heap, begin, owners, binSlotSizes, imageEnd)
      && WordsOk(heap, initial, lockWords, owners, SlotsOf(heap, owners), settled, savedHashesMap)
    }

    /** The quantifier keeps slots and bins out of sight of those who only walk. */
    ghost predicate Valid()
      reads this
    {
      && ValidHeap(heap) && lockWords.Keys == heap.objects.Keys
      && forall begin {:trigger Laid(begin)} | objectsBegin <= begin <= objectsBegin :: Laid(begin)
    }

    /** `SetImageBinSlot`: saves the hash code, if any, and overwrites the lock word. */
    method SetImageBinSlot(o: Id, slot: Word32)
      requires o in lockWords && Unowned(lockWords[o])
      modifies `lockWords, `savedHashesMap, `settled
      ensures lockWords == old(lockWords)[o := Forward(slot)] && settled == old(settled) + [o]
      ensures savedHashesMap == SaveHash(old(savedHashesMap), slot, old(lockWords)[o])
    {
      var word := lockWords[o];
      if State(word) == HashCode {
        savedHashesMap := savedHashesMap[slot := HashOf(word)];
      }
      lockWords := lockWords[o := Forward(slot)];
      settled := settled + [o];
    }

    /** Takes the next slot of the object's bin. */
    method TakeSlot(o: Id) returns (slot: Word32)
      requires o in heap.objects && |binSlotSizes| == BINS
      requires o in lockWords && Unowned(lockWords[o])
      modifies `lockWords, `savedHashesMap, `settled, `binSlotSizes, `imageEnd
      ensures var x := ItemOf(heap, o);
              && slot == Pack(x.bin, old(binSlotSizes)[x.bin])
              && binSlotSizes == old(binSlotSizes)[x.bin := old(binSlotSizes)[x.bin] + x.extent]
              && imageEnd == old(imageEnd) + x.extent
      ensures var size := if heap.objects[o].kind.MethodObject? then heap.methodSize else heap.objects[o].size;
              size <= imageEnd - old(imageEnd) < size + 8 && (imageEnd - old(imageEnd)) % 8 == 0
      ensures lockWords == old(lockWords)[o := Forward(slot)] && settled == old(settled) + [o]
      ensures savedHashesMap == SaveHash(old(savedHashesMap), slot, old(lockWords)[o])
    {
      var chosen := SelectBin(heap.objects[o].kind);
      var bin := Number(chosen);
      var currentOffset := binSlotSizes[bin];
      var delta := RoundUp(ImageSize(heap, o), 8);
      binSlotSizes := binSlotSizes[bin := currentOffset + delta];
      slot := Pack(bin, currentOffset);
      SetImageBinSlot(o, slot);
      imageEnd := imageEnd + delta;
    }

    /** `AssignImageBinSlot`: the object becomes an owner. */
    method AssignImageBinSlot(o: Id)
      requires Valid() && o in heap.objects && !Assigned(lockWords, o) && Canonical(heap, o) == o
      modifies `lockWords, `savedHashesMap, `settled, `binSlotSizes, `imageEnd, `owners
      ensures Valid() && owners == old(owners) + [o] && settled == old(settled) + [o] && Assigned(lockWords, o)
      ensures Extends(old(lockWords), lockWords) && lockWords == old(lockWords)[o := lockWords[o]]
    {
      assert Laid(objectsBegin);
      ghost var slots := SlotsOf(heap, owners);
      NotOwner(heap, lockWords, owners, slots, o);
      ghost var next := PlacesStep(heap, objectsBegin, owners, binSlotSizes, imageEnd, o);
      WordsAssign(heap, initial, lockWords, owners, slots, settled, savedHashesMap, o, next);
      var slot := TakeSlot(o);
      ExtendsUpdate(old(lockWords), o, Forward(slot));
      owners := owners + [o];
    }

    /** `CalculateObjectBinSlots`: a string that is not interned shares the slot of its interned
        string, which may get its slot early. */
    method CalculateObjectBinSlots(o: Id)
      requires Valid() && o in heap.objects
      requires !heap.objects[o].kind.StringObject? ==> !Assigned(lockWords, o)
      modifies `lockWords, `savedHashesMap, `settled, `binSlotSizes, `imageEnd, `owners
      ensures Valid() && Assigned(lockWords, o) && Extends(old(lockWords), lockWords)
      ensures owners == old(owners) || owners == old(owners) + [Canonical(heap, o)]
      ensures !old(Assigned(lockWords, o)) && Canonical(heap, o) !in old(owners) ==>
                owners == old(owners) + [Canonical(heap, o)]
      ensures old(settled) <= settled && (!old(Assigned(lockWords, o)) ==> settled != [] && settled[|settled| - 1] == o)
      ensures forall p | Assigned(lockWords, p) :: old(Assigned(lockWords, p)) || p == o || p == Canonical(heap, o)
    {
      if heap.objects[o].kind.StringObject? {
        if Assigned(lockWords, o) {
          return;
        }
        var interned := heap.objects[o].kind.interned;
        CanonicalIdempotent(heap, o);
        if o != interned {
          if !Assigned(lockWords, interned) {
            AssignImageBinSlot(interned);
          }
          assert Laid(objectsBegin);
          OwnedIfAssigned(heap, lockWords, owners, SlotsOf(heap, owners), interned);
          ghost var middle := lockWords;
          ShareSlot(o, interned);
          ExtendsThen(old(lockWords), middle, lockWords);
          return;
        }
      }
      AssignImageBinSlot(o);
    }

    /** A string that is not interned is found through its interned string. */
    method ShareSlot(o: Id, interned: Id)
      requires Valid() && o in heap.objects && !Assigned(lockWords, o)
      requires interned == Canonical(heap, o) != o && Assigned(lockWords, interned)
      modifies `lockWords, `savedHashesMap, `settled
      ensures Valid() && Assigned(lockWords, o) && Extends(old(lockWords), lockWords) && settled == old(settled) + [o]
      ensures lockWords == old(lockWords)[o := lockWords[o]]
    {
      assert Laid(objectsBegin);
      WordsShare(heap, initial, lockWords, owners, SlotsOf(heap, owners), settled, savedHashesMap, o);
      ExtendsUpdate(lockWords, o, lockWords[interned]);
      SetImageBinSlot(o, Forwarded(lockWords[interned]));
    }

    /** `WalkInstanceFields`: the reference fields of the superclasses, then those of the class. */
    method WalkInstanceFields(o: Id, c: Id, ghost bound: Words)
      requires Valid() && o in heap.objects && c in heap.classes
      requires Closed(heap, bound) && FieldsAssigned(heap, bound, o, c)
      modifies `lockWords, `savedHashesMap, `settled, `binSlotSizes, `imageEnd, `owners
      ensures Valid() && Extends(old(lockWords), lockWords) && old(owners) <= owners && old(settled) <= settled
      ensures FieldsAssigned(heap, lockWords, o, c) && Within(old(lockWords), lockWords, bound)
      decreases Unassigned(lockWords), 1, heap.classes[c].depth
    {
      var info := heap.classes[c];
      assert ValidClass(heap, info);
      if info.super.To? {
        WalkInstanceFields(o, info.super.id, bound);
      }
      ghost var middle := lockWords;
      ExtendsShrinks(old(lockWords), middle);
      WalkRow(o, info.firstInstance, info.instances, bound);
      ExtendsThen(old(lockWords), middle, lockWords);
      WithinThen(old(lockWords), middle, lockWords, bound);
      if info.super.To? {
        FieldsStay(heap, middle, lockWords, o, info.super.id);
      }
    }

    /** Reference fields that lie side by side. */
    method WalkRow(o: Id, first: nat, count: nat, ghost bound: Words)
      requires Valid() && Closed(heap, bound) && RowAssigned(heap, bound, o, first, count)
      modifies `lockWords, `savedHashesMap, `settled, `binSlotSizes, `imageEnd, `owners
      ensures Valid() && Extends(old(lockWords), lockWords) && old(owners) <= owners && old(settled) <= settled
      ensures RowAssigned(heap, lockWords, o, first, count) && Within(old(lockWords), lockWords, bound)
      decreases Unassigned(lockWords), 0, 2
    {
      var offset := first;
      for i := 0 to count
        invariant Valid() && Extends(old(lockWords), lockWords) && old(owners) <= owners && old(settled) <= settled
        invariant Within(old(lockWords), lockWords, bound)
        invariant offset == first + 4 * i && RowAssigned(heap, lockWords, o, first, i)
      {
        ghost var before := lockWords;
        ExtendsShrinks(old(lockWords), before);
        var value := heap.field(o, offset);
        assert InHeap(heap, value) && FieldReached(heap, bound, o, first, i);
        WalkReference(value, bound);
        ExtendsThen(old(lockWords), before, lockWords);
        WithinThen(old(lockWords), before, lockWords, bound);
        RowMore(heap, before, lockWords, o, first, i, offset);
        offset := offset + 4;
      }
    }

    /** One reference; null is skipped. */
    method WalkReference(value: Reference, ghost bound: Words)
      requires Valid() && InHeap(heap, value) && Closed(heap, bound) && Reached(bound, value)
      modifies `lockWords, `savedHashesMap, `settled, `binSlotSizes, `imageEnd, `owners
      ensures Valid() && Extends(old(lockWords), lockWords) && old(owners) <= owners && old(settled) <= settled
      ensures Reached(lockWords, value) && Within(old(lockWords), lockWords, bound)
      decreases Unassigned(lockWords), 0, 1
    {
      if value.To? {
        WalkFieldsInOrder(value.id, bound);
      }
    }

    /** `WalkFieldsInOrder`: an object without a slot gets one, then its fields are walked, then its
        static fields or elements. The heap may be cyclic: every call that goes on has assigned an
        object, so the objects without a slot get fewer. The object comes before what it refers to, and
        nothing outside a closed marking that has it gets a slot. */
    method WalkFieldsInOrder(o: Id, ghost bound: Words)
      requires Valid() && o in heap.objects && Closed(heap, bound) && Assigned(bound, o)
      modifies `lockWords, `savedHashesMap, `settled, `binSlotSizes, `imageEnd, `owners
      ensures Valid() && Assigned(lockWords, o) && Extends(old(lockWords), lockWords)
      ensures old(owners) <= owners && old(settled) <= settled && Within(old(lockWords), lockWords, bound)
      ensures !old(Assigned(lockWords, o)) ==> ReferentsAssigned(heap, lockWords, o)
      ensures !old(Assigned(lockWords, o)) && Canonical(heap, o) !in old(owners) ==>
                |owners| > |old(owners)| && owners[|old(owners)|] == Canonical(heap, o)
      decreases Unassigned(lockWords), 0, 0
    {
      if !Assigned(lockWords, o) {
        assert o in Unassigned(lockWords);
        assert ClosedAt(heap, bound, o);
        CalculateObjectBinSlots(o);
        ghost var first := lockWords;
        ExtendsShrinks(old(lockWords), first);
        assert o !in Unassigned(first);
        WalkReferents(o, bound);
        ExtendsThen(old(lockWords), first, lockWords);
        WithinThen(old(lockWords), first, lockWords, bound);
        StaysAssigned(first, lockWords, o);
      }
    }

    /** Everything the walk follows from an object: the fields of its class, and for a class object the
        static fields of its class, not its own. */
    method WalkReferents(o: Id, ghost bound: Words)
      requires Valid() && o in heap.objects && Closed(heap, bound) && ReferentsAssigned(heap, bound, o)
      modifies `lockWords, `savedHashesMap, `settled, `binSlotSizes, `imageEnd, `owners
      ensures Valid() && Extends(old(lockWords), lockWords) && old(owners) <= owners && old(settled) <= settled
      ensures ReferentsAssigned(heap, lockWords, o) && Within(old(lockWords), lockWords, bound)
      decreases Unassigned(lockWords), 2
    {
      var object_ := heap.objects[o];
      assert ValidObject(heap, object_);
      WalkInstanceFields(o, object_.klass, bound);
      ghost var middle := lockWords;
      ExtendsShrinks(old(lockWords), middle);
      if object_.kind.ClassObject? {
        var info := heap.classes[object_.klass];
        WalkRow(o, info.firstStatic, info.statics, bound);
      } else if object_.kind.ArrayObject? {
        WalkElements(object_.kind.elements, bound);
      }
      ExtendsThen(old(lockWords), middle, lockWords);
      WithinThen(old(lockWords), middle, lockWords, bound);
      FieldsStay(heap, middle, lockWords, o, object_.klass);
    }

    method WalkElements(elements: seq<Reference>, ghost bound: Words)
      requires Valid() && forall r | r in elements :: InHeap(heap, r)
      requires Closed(heap, bound) && AllReached(bound, elements, |elements|)
      modifies `lockWords, `savedHashesMap, `settled, `binSlotSizes, `imageEnd, `owners
      ensures Valid() && Extends(old(lockWords), lockWords) && old(owners) <= owners && old(settled) <= settled
      ensures AllReached(lockWords, elements, |elements|) && Within(old(lockWords), lockWords, bound)
      decreases Unassigned(lockWords), 0, 2
    {
      for i := 0 to |elements|
        invariant Valid() && Extends(old(lockWords), lockWords) && old(owners) <= owners && old(settled) <= settled
        invariant AllReached(lockWords, elements, i) && Within(old(lockWords), lockWords, bound)
      {
        ghost var before := lockWords;
        ExtendsShrinks(old(lockWords), before);
        assert Reached(bound, elements[i]);
        WalkReference(elements[i], bound);
        ExtendsThen(old(lockWords), before, lockWords);
        WithinThen(old(lockWords), before, lockWords, bound);
        ReachedMore(before, lockWords, elements, i);
      }
    }

    /** The first pass: the heap's objects in order. */
    method WalkHeap()
      requires Valid()
      modifies `lockWords, `savedHashesMap, `settled, `binSlotSizes, `imageEnd, `owners
      ensures Valid() && AllAssigned(heap, lockWords)
    {
      EverythingClosed(heap);
      for i := 0 to |heap.order|
        invariant Valid() && AssignedUpTo(heap.order, lockWords, i)
      {
        ghost var before := lockWords;
        assert heap.order[i] in heap.order;
        WalkFieldsInOrder(heap.order[i], Everything(heap));
        AssignedMore(heap.order, before, lockWords, i);
      }
      AssignedAll(heap, lockWords);
    }

    /** `SetImageOffset`: moves the saved hash code, if any, and overwrites the lock word. */
    method SetImageOffset(o: Id, slot: Word32, offset: Word32)
      requires o in lockWords
      modifies `lockWords, `savedHashesMap, `savedHashes
      ensures lockWords == old(lockWords)[o := Forward(offset)]
      ensures savedHashesMap == LeftHashes(old(savedHashesMap), slot)
      ensures savedHashes == MoreSaved(old(savedHashesMap), old(savedHashes), slot, offset)
    {
      if slot in savedHashesMap {
        savedHashes := savedHashes + [(offset, savedHashesMap[slot])];
        savedHashesMap := savedHashesMap - {slot};
      }
      lockWords := lockWords[o := Forward(offset)];
    }

    /** `AssignImageOffset`: the bins before the object's bin, then its index. */
    method AssignImageOffset(o: Id, slot: Word32)
      requires o in lockWords && AllIn(heap, owners) && AreSizes(heap, owners, binSlotSizes)
      requires ValidItems(ItemsOf(heap, owners)) && Total(ItemsOf(heap, owners)) < TWO31
      requires SlotOffset(ItemsOf(heap, owners), objectsBegin, slot) < TWO32
      modifies `lockWords, `savedHashesMap, `savedHashes
      ensures var offset := SlotOffset(ItemsOf(heap, owners), objectsBegin, slot);
              && lockWords == old(lockWords)[o := Forward(offset)]
              && savedHashesMap == LeftHashes(old(savedHashesMap), slot)
              && savedHashes == MoreSaved(old(savedHashesMap), old(savedHashes), slot, offset)
    {
      var previous := GetBinSizeSum(binSlotSizes, GetBin(slot));
      SumIsExact(heap, owners, binSlotSizes, GetBin(slot));
      SetImageOffset(o, slot, objectsBegin + previous + GetIndex(slot));
    }

    /** `UnbinObjectsIntoOffset`: the slot of the `i`th object becomes an offset. */
    method UnbinObjectsIntoOffset(i: nat, ghost first: Words, ghost all: map<Word32, Word32>)
      requires Ready(heap, objectsBegin, owners, binSlotSizes, first) && i < |heap.order|
      requires SecondPass(heap, objectsBegin, owners, first, all, lockWords, savedHashesMap, savedHashes, i)
      modifies `lockWords, `savedHashesMap, `savedHashes
      ensures SecondPass(heap, objectsBegin, owners, first, all, lockWords, savedHashesMap, savedHashes, i + 1)
    {
      SecondStep(heap, objectsBegin, owners, binSlotSizes, first, all, lockWords, savedHashesMap, savedHashes, i);
      AssignImageOffset(heap.order[i], Forwarded(lockWords[heap.order[i]]));
    }

    /** The second pass: all slots become offsets, and all saved hash codes move to the offsets. */
    method UnbinHeap()
      requires Valid() && AllAssigned(heap, lockWords) && savedHashes == []
      modifies `lockWords, `savedHashesMap, `savedHashes
      ensures LaidOut(heap, lockWords, objectsBegin, imageEnd)
      ensures savedHashesMap == map[] && HashesKept(initial, lockWords, settled, savedHashes)
    {
      assert Laid(objectsBegin);
      ghost var first, all := lockWords, savedHashesMap;
      FirstIsReady(heap, objectsBegin, owners, binSlotSizes, first);
      SavedUnderSlots(heap, first, owners, SlotsOf(heap, owners), initial, settled, all);
      SecondStart(heap, objectsBegin, owners, first, all);
      VisitAgain(first, all);
      SecondEnd(heap, objectsBegin, owners, initial, first, settled, all, lockWords, savedHashesMap, savedHashes, imageEnd);
    }

    method VisitAgain(ghost first: Words, ghost all: map<Word32, Word32>)
      requires Ready(heap, objectsBegin, owners, binSlotSizes, first)
      requires SecondPass(heap, objectsBegin, owners, first, all, lockWords, savedHashesMap, savedHashes, 0)
      modifies `lockWords, `savedHashesMap, `savedHashes
      ensures SecondPass(heap, objectsBegin, owners, first, all, lockWords, savedHashesMap, savedHashes, |heap.order|)
    {
      for i := 0 to |heap.order|
        invariant SecondPass(heap, objectsBegin, owners, first, all, lockWords, savedHashesMap, savedHashes, i)
      {
        UnbinObjectsIntoOffset(i, first, all);
      }
    }

    /** `CalculateNewObjectOffsets`: space for the header, then the two passes. */
    method CalculateNewObjectOffsets(headerSize: nat)
      requires Fresh() && Deflated(initial) && initial.Keys == heap.objects.Keys
      requires Bounded(heap, RoundUp(headerSize, 8))
      modifies this
      ensures objectsBegin == RoundUp(headerSize, 8)
      ensures LaidOut(heap, lockWords, objectsBegin, imageEnd)
      ensures WellSeated(heap, lockWords, objectsBegin, imageEnd)
      ensures savedHashesMap == map[] && HashesKept(initial, lockWords, settled, savedHashes)
      ensures AllOwn(initial, lockWords, savedHashes) <==> SharersAgree(heap, initial)
    {
      imageEnd := imageEnd + RoundUp(headerSize, 8);
      objectsBegin := imageEnd;
      StartPlaces(heap, objectsBegin);
      StartWords(heap, initial);
      WalkHeap();
      assert objectsBegin <= imageEnd by {
        assert Laid(objectsBegin);
      }
      UnbinHeap();
      OwnHashes(heap, initial, lockWords, settled, savedHashes, objectsBegin, imageEnd);
      LaidOutMeans(heap, lockWords, objectsBegin, imageEnd);
    }
  }
}
