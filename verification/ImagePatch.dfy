/**
 Relocation of the image. patchoat walks the objects of the loaded image and writes their references
 and entry points, moved by a delta, into a copy. It reads only the loaded image, so it does not
 matter how often an object is visited.
 */
module ImagePatch {
  import opened Bytes
  import opened LittleEndian
  import opened Streams

  /** A place in an object that holds an address: a reference, of four bytes, or an entry point of a
      method, as wide as a pointer of the target. */
  datatype Slot = Reference(at: nat) | EntryPoint(at: nat, width: nat)

  /** An object, by the places of its references and, for a method, of its entry points. */
  datatype Object = Object(references: seq<nat>, entryPoints: seq<nat>)

  function Width(s: Slot): nat {
    if s.Reference? then 4 else s.width
  }

  /** The bytes of a slot. */
  function Contents(memory: seq<Byte>, s: Slot): (bytes: seq<Byte>)
    requires s.at + Width(s) <= |memory|
    ensures |bytes| == Width(s)
  {
    memory[s.at..s.at + Width(s)]
  }

  /** An address moved by `delta`; null stays null. */
  function MovedAddress(address: nat, delta: int, width: nat): (moved: nat)
    ensures moved < Pow256(width) || moved == address
  {
    if address == 0 then 0 else (address + delta) % Pow256(width)
  }

  /** The bytes the slot should have in the copy. */
  function Relocated(bytes: seq<Byte>, delta: int): (moved: seq<Byte>)
    ensures |moved| == |bytes|
  {
    NumberBytes(MovedAddress(BytesNumber(bytes), delta, |bytes|), |bytes|)
  }

  /** Read back, they are the original address plus the delta, once; null if it was null. */
  lemma {:induction false} RelocatedOnce(bytes: seq<Byte>, delta: int)
    ensures var address := BytesNumber(bytes);
            BytesNumber(Relocated(bytes, delta)) ==
            if address == 0 then 0 else (address + delta) % Pow256(|bytes|)
  {
    NumberBound(bytes);
    NumberRoundTrip(MovedAddress(BytesNumber(bytes), delta, |bytes|), |bytes|);
  }

  lemma {:induction false} ZeroBytes(bytes: seq<Byte>)
    requires BytesNumber(bytes) == 0
    ensures bytes == NumberBytes(0, |bytes|)
  {
    if bytes != [] {
      ZeroBytes(bytes[1..]);
      assert NumberBytes(0, |bytes|)[1..] == NumberBytes(0, |bytes| - 1);
      assert bytes == [bytes[0]] + bytes[1..];
      assert NumberBytes(0, |bytes|) == [0] + NumberBytes(0, |bytes|)[1..];
    }
  }

  // ----- the copy -----

  predicate SlotsApart(s: Slot, t: Slot) {
    s == t || s.at + Width(s) <= t.at || t.at + Width(t) <= s.at
  }

  /** Slots lie in the image, and different slots do not overlap. */
  ghost predicate ValidSlots(slots: seq<Slot>, size: nat) {
    && (forall i {:trigger slots[i]} | 0 <= i < |slots| :: slots[i].at + Width(slots[i]) <= size)
    && (forall i, j {:trigger slots[i], slots[j]} | 0 <= i < |slots| && 0 <= j < |slots| :: SlotsApart(slots[i], slots[j]))
  }

  /** Byte `k` belongs to none of the first `n` slots. */
  ghost predicate Beside(slots: seq<Slot>, n: nat, k: nat)
    requires n <= |slots|
  {
    forall i {:trigger slots[i]} | 0 <= i < n :: k < slots[i].at || slots[i].at + Width(slots[i]) <= k
  }

  ghost predicate SlotMoved(heap: seq<Byte>, copy: seq<Byte>, s: Slot, delta: int) {
    s.at + Width(s) <= |heap| && Placed(copy, s.at, Relocated(Contents(heap, s), delta))
  }

  /** The first `n` slots are moved once, whatever the number of visits; the rest is as loaded. */
  ghost predicate IsMoved(heap: seq<Byte>, copy: seq<Byte>, slots: seq<Slot>, n: nat, delta: int)
    requires n <= |slots|
  {
    && |copy| == |heap|
    && (forall i {:trigger SlotMoved(heap, copy, slots[i], delta)} | 0 <= i < n :: SlotMoved(heap, copy, slots[i], delta))
    && (forall k {:trigger At(copy, k)} | 0 <= k < |heap| && Beside(slots, n, k) :: At(copy, k) == At(heap, k))
  }

  /** One more slot. */
  lemma MoveStep(heap: seq<Byte>, before: seq<Byte>, after: seq<Byte>, slots: seq<Slot>, n: nat, delta: int)
    requires n < |slots| && ValidSlots(slots, |heap|) && IsMoved(heap, before, slots, n, delta)
    requires |after| == |before| && SlotMoved(heap, after, slots[n], delta)
    requires SameOutside(before, after, slots[n].at, slots[n].at + Width(slots[n]))
    ensures IsMoved(heap, after, slots, n + 1, delta)
  {
    var s := slots[n];
    forall i | 0 <= i < n ensures SlotMoved(heap, after, slots[i], delta) {
      assert SlotMoved(heap, before, slots[i], delta);
      assert SlotsApart(slots[i], slots[n]);
      if slots[i] != s {
        PlacedStays(before, after, s.at, s.at + Width(s), slots[i].at, Relocated(Contents(heap, slots[i]), delta));
      }
    }
    forall k: nat | k < |heap| && Beside(slots, n + 1, k) ensures At(after, k) == At(heap, k) {
      assert k < slots[n].at || slots[n].at + Width(slots[n]) <= k;
      assert Beside(slots, n, k);
      assert At(before, k) == At(heap, k);
    }
  }

  // ----- visiting -----

  function SlotsOf(o: Object, pointer: nat): seq<Slot> {
    seq(|o.references|, i requires 0 <= i < |o.references| => Reference(o.references[i])) +
    seq(|o.entryPoints|, i requires 0 <= i < |o.entryPoints| => EntryPoint(o.entryPoints[i], pointer))
  }

  /** The slots of the visited objects, one visit after the other. */
  function AllSlots(visits: seq<Object>, pointer: nat): seq<Slot> {
    if visits == [] then [] else AllSlots(visits[..|visits| - 1], pointer) + SlotsOf(visits[|visits| - 1], pointer)
  }

  /** Writes bytes into the copy. */
  method Write(copy: array<Byte>, at: nat, bytes: seq<Byte>)
    requires at + |bytes| <= copy.Length
    modifies copy
    ensures Placed(copy[..], at, bytes) && SameOutside(old(copy[..]), copy[..], at, at + |bytes|)
  {
    for i := 0 to |bytes|
      invariant forall k {:trigger copy[k]} | 0 <= k < copy.Length ::
                  copy[k] == if at <= k < at + i then bytes[k - at] else old(copy[k])
    {
      copy[at + i] := bytes[i];
    }
  }

  /** One slot: a reference is always written, an entry point only if it is not null. */
  method PatchSlot(heap: array<Byte>, copy: array<Byte>, s: Slot, delta: int, ghost slots: seq<Slot>, ghost n: nat)
    requires heap != copy && copy.Length == heap.Length
    requires n < |slots| && s == slots[n] && ValidSlots(slots, heap.Length)
    requires IsMoved(heap[..], copy[..], slots, n, delta)
    modifies copy
    ensures IsMoved(heap[..], copy[..], slots, n + 1, delta)
  {
    var bytes := Contents(heap[..], s);
    var address := BytesNumber(bytes);
    ghost var before := copy[..];
    if s.Reference? || address != 0 {
      Write(copy, s.at, NumberBytes(MovedAddress(address, delta, Width(s)), Width(s)));
    } else {
      ZeroBytes(bytes);
      NullStays(heap[..], copy[..], slots, n, delta);
    }
    MoveStep(heap[..], before, copy[..], slots, n, delta);
  }

  /** A null entry point that is skipped has its right value already. */
  lemma NullStays(heap: seq<Byte>, copy: seq<Byte>, slots: seq<Slot>, n: nat, delta: int)
    requires n < |slots| && ValidSlots(slots, |heap|) && IsMoved(heap, copy, slots, n, delta)
    requires BytesNumber(Contents(heap, slots[n])) == 0
    ensures SlotMoved(heap, copy, slots[n], delta)
  {
    var s := slots[n];
    ZeroBytes(Contents(heap, s));
    if i :| 0 <= i < n && slots[i] == s {
      assert SlotMoved(heap, copy, slots[i], delta);
    } else {
      forall p | 0 <= p < Width(s) ensures At(copy, s.at + p) == Contents(heap, s)[p] {
        forall i | 0 <= i < n ensures s.at + p < slots[i].at || slots[i].at + Width(slots[i]) <= s.at + p {
          assert SlotsApart(slots[i], slots[n]);
        }
        assert Beside(slots, n, s.at + p);
        assert At(copy, s.at + p) == At(heap, s.at + p);
      }
    }
  }

  /** The slots of the next visit. */
  ghost predicate Upcoming(slots: seq<Slot>, n: nat, o: Object, pointer: nat) {
    n + |SlotsOf(o, pointer)| <= |slots| && slots[n..n + |SlotsOf(o, pointer)|] == SlotsOf(o, pointer)
  }

  /** `VisitObject`: the references, then the entry points of a method. */
  method VisitObject(heap: array<Byte>, copy: array<Byte>, o: Object, pointer: nat, delta: int, ghost slots: seq<Slot>,
                     ghost n: nat)
    requires heap != copy && copy.Length == heap.Length && ValidSlots(slots, heap.Length)
    requires Upcoming(slots, n, o, pointer) && IsMoved(heap[..], copy[..], slots, n, delta)
    modifies copy
    ensures IsMoved(heap[..], copy[..], slots, n + |SlotsOf(o, pointer)|, delta)
    ensures ObjectMoved(heap[..], copy[..], o, pointer, delta)
  {
    ghost var own := SlotsOf(o, pointer);
    for i := 0 to |o.references|
      invariant IsMoved(heap[..], copy[..], slots, n + i, delta)
    {
      assert slots[n..n + |own|][i] == own[i];
      PatchSlot(heap, copy, Reference(o.references[i]), delta, slots, n + i);
    }
    ghost var m := n + |o.references|;
    for i := 0 to |o.entryPoints|
      invariant IsMoved(heap[..], copy[..], slots, m + i, delta)
    {
      assert slots[n..n + |own|][|o.references| + i] == own[|o.references| + i];
      PatchSlot(heap, copy, EntryPoint(o.entryPoints[i], pointer), delta, slots, m + i);
    }
    VisitMeans(heap[..], copy[..], o, pointer, delta, slots, n);
  }

  lemma {:induction false} VisitMeans(heap: seq<Byte>, copy: seq<Byte>, o: Object, pointer: nat, delta: int,
                                      slots: seq<Slot>, n: nat)
    requires Upcoming(slots, n, o, pointer) && IsMoved(heap, copy, slots, n + |SlotsOf(o, pointer)|, delta)
    ensures ObjectMoved(heap, copy, o, pointer, delta)
  {
    var own := SlotsOf(o, pointer);
    forall s | SlotIn(s, o, pointer) ensures PlaceMoved(heap, copy, s.at, Width(s), delta) {
      SlotsOfHas(o, pointer, s);
      var k :| 0 <= k < |own| && own[k] == s;
      assert slots[n..n + |own|][k] == own[k];
      assert SlotMoved(heap, copy, slots[n + k], delta);
      SlotReads(heap, copy, s, delta);
    }
    forall at | at in o.references ensures PlaceMoved(heap, copy, at, 4, delta) {
      assert SlotIn(Reference(at), o, pointer);
    }
    forall at | at in o.entryPoints ensures PlaceMoved(heap, copy, at, pointer, delta) {
      assert SlotIn(EntryPoint(at, pointer), o, pointer);
    }
  }

  lemma {:induction false} VisitUpcoming(visits: seq<Object>, pointer: nat, i: nat, n: nat)
    requires i < n <= |visits|
    ensures Upcoming(AllSlots(visits[..n], pointer), |AllSlots(visits[..i], pointer)|, visits[i], pointer)
    ensures AllSlots(visits[..i + 1], pointer) == AllSlots(visits[..i], pointer) + SlotsOf(visits[i], pointer)
    decreases n
  {
    assert visits[..i + 1][..i] == visits[..i];
    assert visits[..n][..n - 1] == visits[..n - 1];
    if i < n - 1 {
      VisitUpcoming(visits, pointer, i, n - 1);
    }
  }

  // ----- objects and their places -----

  /** Two places of the given widths are the same or do not overlap. */
  predicate PlacesApart(a: nat, b: nat, width: nat) {
    a == b || a + width <= b || b + width <= a
  }

  predicate Disjoint(a: nat, width: nat, b: nat, width': nat) {
    a + width <= b || b + width' <= a
  }

  /** References and entry points lie in the image. */
  ghost predicate InsideImage(o: Object, pointer: nat, size: nat) {
    && (forall at | at in o.references :: at + 4 <= size)
    && (forall at | at in o.entryPoints :: at + pointer <= size)
  }

  /** Different places of two objects do not overlap. */
  ghost predicate ObjectsApart(o: Object, p: Object, pointer: nat) {
    && (forall a, b | a in o.references && b in p.references :: PlacesApart(a, b, 4))
    && (forall a, b | a in o.entryPoints && b in p.entryPoints :: PlacesApart(a, b, pointer))
    && (forall a, b | a in o.references && b in p.entryPoints :: Disjoint(a, 4, b, pointer))
  }

  ghost predicate ValidVisits(visits: seq<Object>, pointer: nat, size: nat) {
    && (forall i {:trigger visits[i]} | 0 <= i < |visits| :: InsideImage(visits[i], pointer, size))
    && (forall i, j {:trigger visits[i], visits[j]} | 0 <= i < |visits| && 0 <= j < |visits| ::
          ObjectsApart(visits[i], visits[j], pointer))
  }

  /** The address at a place of the copy is the original one plus the delta, once, or null if it was null. */
  ghost predicate PlaceMoved(heap: seq<Byte>, copy: seq<Byte>, at: nat, width: nat, delta: int) {
    && at + width <= |heap| == |copy|
    && var address := BytesNumber(heap[at..at + width]);
       BytesNumber(copy[at..at + width]) == if address == 0 then 0 else (address + delta) % Pow256(width)
  }

  /** All references, of four bytes, and all entry points, as wide as a pointer, are moved. */
  ghost predicate ObjectMoved(heap: seq<Byte>, copy: seq<Byte>, o: Object, pointer: nat, delta: int) {
    && (forall at | at in o.references :: PlaceMoved(heap, copy, at, 4, delta))
    && (forall at | at in o.entryPoints :: PlaceMoved(heap, copy, at, pointer, delta))
  }

  /** Byte `k` belongs to no reference and no entry point of `o`. */
  ghost predicate NotOf(o: Object, pointer: nat, k: nat) {
    && (forall at | at in o.references :: k < at || at + 4 <= k)
    && (forall at | at in o.entryPoints :: k < at || at + pointer <= k)
  }

  ghost predicate OfNone(visits: seq<Object>, pointer: nat, k: nat) {
    forall i {:trigger visits[i]} | 0 <= i < |visits| :: NotOf(visits[i], pointer, k)
  }

  /** Every visited object is moved, and the rest of the image is as it was. */
  ghost predicate VisitsMoved(heap: seq<Byte>, copy: seq<Byte>, visits: seq<Object>, pointer: nat, delta: int) {
    && |copy| == |heap|
    && (forall i {:trigger visits[i]} | 0 <= i < |visits| :: ObjectMoved(heap, copy, visits[i], pointer, delta))
    && (forall k {:trigger copy[k]} | 0 <= k < |copy| && OfNone(visits, pointer, k) :: copy[k] == heap[k])
  }

  /** A slot is a place of an object. */
  ghost predicate SlotIn(s: Slot, o: Object, pointer: nat) {
    match s
    case Reference(at) => at in o.references
    case EntryPoint(at, width) => at in o.entryPoints && width == pointer
  }

  lemma SlotsOfHas(o: Object, pointer: nat, s: Slot)
    ensures s in SlotsOf(o, pointer) <==> SlotIn(s, o, pointer)
  {
    var slots := SlotsOf(o, pointer);
    if s in slots {
      var k :| 0 <= k < |slots| && slots[k] == s;
    }
    if s.Reference? && s.at in o.references {
      var k :| 0 <= k < |o.references| && o.references[k] == s.at;
      assert slots[k] == s;
    }
    if s.EntryPoint? && s.at in o.entryPoints && s.width == pointer {
      var k :| 0 <= k < |o.entryPoints| && o.entryPoints[k] == s.at;
      assert slots[|o.references| + k] == s;
    }
  }

  lemma {:induction false} AllSlotsHave(visits: seq<Object>, pointer: nat, s: Slot)
    ensures s in AllSlots(visits, pointer) <==> exists i :: 0 <= i < |visits| && SlotIn(s, visits[i], pointer)
  {
    if visits != [] {
      AllSlotsHave(visits[..|visits| - 1], pointer, s);
      SlotsOfHas(visits[|visits| - 1], pointer, s);
    }
  }

  lemma {:induction false} SlotAmong(visits: seq<Object>, pointer: nat, k: nat) returns (i: nat)
    requires k < |AllSlots(visits, pointer)|
    ensures i < |visits| && SlotIn(AllSlots(visits, pointer)[k], visits[i], pointer)
  {
    var s := AllSlots(visits, pointer)[k];
    AllSlotsHave(visits, pointer, s);
    i :| 0 <= i < |visits| && SlotIn(s, visits[i], pointer);
  }

  lemma {:induction false} VisitsAreValid(visits: seq<Object>, pointer: nat, size: nat)
    requires ValidVisits(visits, pointer, size)
    ensures ValidSlots(AllSlots(visits, pointer), size)
  {
    var slots := AllSlots(visits, pointer);
    forall k | 0 <= k < |slots| ensures slots[k].at + Width(slots[k]) <= size {
      var i := SlotAmong(visits, pointer, k);
    }
    forall k, m | 0 <= k < |slots| && 0 <= m < |slots| ensures SlotsApart(slots[k], slots[m]) {
      var i := SlotAmong(visits, pointer, k);
      var j := SlotAmong(visits, pointer, m);
      assert ObjectsApart(visits[i], visits[j], pointer) && ObjectsApart(visits[j], visits[i], pointer);
    }
  }

  /** The moved bytes of a slot, read as an address. */
  lemma SlotReads(heap: seq<Byte>, copy: seq<Byte>, s: Slot, delta: int)
    requires |copy| == |heap| && SlotMoved(heap, copy, s, delta)
    ensures PlaceMoved(heap, copy, s.at, Width(s), delta)
  {
    var bytes := Relocated(Contents(heap, s), delta);
    forall p | 0 <= p < Width(s) ensures Contents(copy, s)[p] == bytes[p] {
      assert At(copy, s.at + p) == bytes[p];
    }
    assert Contents(copy, s) == bytes;
    RelocatedOnce(Contents(heap, s), delta);
  }

  lemma {:induction false} VisitedMoves(heap: seq<Byte>, copy: seq<Byte>, visits: seq<Object>, pointer: nat, delta: int,
                                        i: nat, s: Slot)
    requires i < |visits| && SlotIn(s, visits[i], pointer)
    requires var slots := AllSlots(visits, pointer); IsMoved(heap, copy, slots, |slots|, delta)
    ensures PlaceMoved(heap, copy, s.at, Width(s), delta)
  {
    var slots := AllSlots(visits, pointer);
    AllSlotsHave(visits, pointer, s);
    var k :| 0 <= k < |slots| && slots[k] == s;
    assert SlotMoved(heap, copy, slots[k], delta);
    SlotReads(heap, copy, s, delta);
  }

  lemma {:induction false} NoneIsBeside(visits: seq<Object>, pointer: nat, k: nat)
    requires OfNone(visits, pointer, k)
    ensures Beside(AllSlots(visits, pointer), |AllSlots(visits, pointer)|, k)
  {
    var slots := AllSlots(visits, pointer);
    forall m | 0 <= m < |slots| ensures k < slots[m].at || slots[m].at + Width(slots[m]) <= k {
      var i := SlotAmong(visits, pointer, m);
      assert NotOf(visits[i], pointer, k);
    }
  }

  /** What the moved slots mean for the visited objects. */
  lemma {:induction false} MovedMeans(heap: seq<Byte>, copy: seq<Byte>, visits: seq<Object>, pointer: nat, delta: int)
    requires var slots := AllSlots(visits, pointer); IsMoved(heap, copy, slots, |slots|, delta)
    ensures VisitsMoved(heap, copy, visits, pointer, delta)
  {
    forall i | 0 <= i < |visits| ensures ObjectMoved(heap, copy, visits[i], pointer, delta) {
      forall at | at in visits[i].references ensures PlaceMoved(heap, copy, at, 4, delta) {
        VisitedMoves(heap, copy, visits, pointer, delta, i, Reference(at));
      }
      forall at | at in visits[i].entryPoints ensures PlaceMoved(heap, copy, at, pointer, delta) {
        VisitedMoves(heap, copy, visits, pointer, delta, i, EntryPoint(at, pointer));
      }
    }
    forall k | 0 <= k < |copy| && OfNone(visits, pointer, k) ensures copy[k] == heap[k] {
      NoneIsBeside(visits, pointer, k);
      assert At(copy, k) == At(heap, k);
    }
  }

  /** Visits objects one after the other. */
  method VisitAll(heap: array<Byte>, copy: array<Byte>, visits: seq<Object>, pointer: nat, delta: int)
    requires heap != copy && copy[..] == heap[..] && ValidSlots(AllSlots(visits, pointer), heap.Length)
    modifies copy
    ensures var slots := AllSlots(visits, pointer);
            IsMoved(heap[..], copy[..], slots, |slots|, delta)
  {
    ghost var slots := AllSlots(visits, pointer);
    assert visits[..|visits|] == visits;
    for i := 0 to |visits|
      invariant |AllSlots(visits[..i], pointer)| <= |slots|
      invariant IsMoved(heap[..], copy[..], slots, |AllSlots(visits[..i], pointer)|, delta)
    {
      VisitUpcoming(visits, pointer, i, |visits|);
      VisitObject(heap, copy, visits[i], pointer, delta, slots, |AllSlots(visits[..i], pointer)|);
    }
  }

  /** `PatchImage`: the roots first, then everything the bitmap marks, the roots among it. */
  method PatchImage(heap: array<Byte>, copy: array<Byte>, roots: Object, marked: seq<Object>, pointer: nat, delta: int)
    requires heap != copy && copy[..] == heap[..] && ValidVisits([roots] + marked, pointer, heap.Length)
    modifies copy
    ensures VisitsMoved(heap[..], copy[..], [roots] + marked, pointer, delta)
    ensures var slots := AllSlots([roots] + marked, pointer);
            IsMoved(heap[..], copy[..], slots, |slots|, delta)
  {
    var visits := [roots] + marked;
    VisitsAreValid(visits, pointer, heap.Length);
    VisitAll(heap, copy, visits, pointer, delta);
    MovedMeans(heap[..], copy[..], visits, pointer, delta);
  }

  // ----- how often an object is visited does not matter -----

  lemma SameByte(heap: seq<Byte>, a: seq<Byte>, b: seq<Byte>, s: seq<Slot>, t: seq<Slot>, delta: int, k: nat)
    requires IsMoved(heap, a, s, |s|, delta) && IsMoved(heap, b, t, |t|, delta) && k < |heap|
    requires forall slot :: slot in s <==> slot in t
    ensures At(a, k) == At(b, k)
  {
    if i :| 0 <= i < |s| && s[i].at <= k < s[i].at + Width(s[i]) {
      assert s[i] in t;
      var j :| 0 <= j < |t| && t[j] == s[i];
      assert SlotMoved(heap, a, s[i], delta) && SlotMoved(heap, b, t[j], delta);
      var bytes := Relocated(Contents(heap, s[i]), delta);
      assert At(a, s[i].at + (k - s[i].at)) == bytes[k - s[i].at];
      assert At(b, s[i].at + (k - s[i].at)) == bytes[k - s[i].at];
    } else {
      assert Beside(s, |s|, k);
      forall j | 0 <= j < |t| ensures k < t[j].at || t[j].at + Width(t[j]) <= k {
        assert t[j] in s;
      }
      assert Beside(t, |t|, k);
      assert At(a, k) == At(heap, k) && At(b, k) == At(heap, k);
    }
  }

  /** Two walks over the same slots, in any order and with any repetitions, give the same image. */
  lemma VisitsDoNotAddUp(heap: seq<Byte>, a: seq<Byte>, b: seq<Byte>, s: seq<Slot>, t: seq<Slot>, delta: int)
    requires IsMoved(heap, a, s, |s|, delta) && IsMoved(heap, b, t, |t|, delta)
    requires forall slot :: slot in s <==> slot in t
    ensures a == b
  {
    forall k | 0 <= k < |heap| ensures a[k] == b[k] {
      SameByte(heap, a, b, s, t, delta, k);
      assert At(a, k) == At(b, k);
    }
  }

  /** Walks that visit the same objects, in any order and as often as they like, give the same image. */
  lemma {:induction false} WalksAgree(heap: seq<Byte>, a: seq<Byte>, b: seq<Byte>, visits: seq<Object>,
                                      visits': seq<Object>, pointer: nat, delta: int)
    requires forall o :: o in visits <==> o in visits'
    requires var slots := AllSlots(visits, pointer); IsMoved(heap, a, slots, |slots|, delta)
    requires var slots := AllSlots(visits', pointer); IsMoved(heap, b, slots, |slots|, delta)
    ensures a == b
  {
    forall s ensures s in AllSlots(visits, pointer) <==> s in AllSlots(visits', pointer) {
      AllSlotsHave(visits, pointer, s);
      AllSlotsHave(visits', pointer, s);
      if i :| 0 <= i < |visits| && SlotIn(s, visits[i], pointer) {
        assert visits[i] in visits';
      }
      if i :| 0 <= i < |visits'| && SlotIn(s, visits'[i], pointer) {
        assert visits'[i] in visits;
      }
    }
    VisitsDoNotAddUp(heap, a, b, AllSlots(visits, pointer), AllSlots(visits', pointer), delta);
  }

  /** The address a reader finds in a slot of the copy. */
  lemma AddressMoved(heap: seq<Byte>, copy: seq<Byte>, slots: seq<Slot>, delta: int, i: nat)
    requires ValidSlots(slots, |heap|) && IsMoved(heap, copy, slots, |slots|, delta) && i < |slots|
    ensures var s := slots[i];
            var address := BytesNumber(Contents(heap, s));
            BytesNumber(Contents(copy, s)) == if address == 0 then 0 else (address + delta) % Pow256(Width(s))
  {
    var s := slots[i];
    assert SlotMoved(heap, copy, slots[i], delta);
    var bytes := Relocated(Contents(heap, s), delta);
    forall p | 0 <= p < Width(s) ensures Contents(copy, s)[p] == bytes[p] {
      assert At(copy, s.at + p) == bytes[p];
    }
    assert Contents(copy, s) == bytes;
    RelocatedOnce(Contents(heap, s), delta);
  }
}
