/**
 Where the image writer does not do what one might expect of it: heaps on which the walk passes over a
 static field, and on which a hash code is lost, with the exact conditions.
 */
module ImageLimits {
  import opened Bytes
  import opened Sequences
  import opened ImageSlots
  import opened BinLayout
  import opened ImageHeap
  import opened ImageLayout

  // ----- which fields of a class object are walked -----

  ghost predicate ClassOk(classes: map<Id, ClassInfo>, c: Id)
    requires c in classes
  {
    classes[c].super.To? ==> classes[c].super.id in classes && classes[classes[c].super.id].depth < classes[c].depth
  }

  ghost predicate ClassesOk(classes: map<Id, ClassInfo>) {
    forall c {:trigger ClassOk(classes, c)} | c in classes :: ClassOk(classes, c)
  }

  ghost predicate AtIndex(first: nat, count: nat, offset: nat, j: nat) {
    j < count && offset == first + 4 * j
  }

  /** The offset is one of a row of fields. */
  ghost predicate InRow(first: nat, count: nat, offset: nat) {
    exists j :: AtIndex(first, count, offset, j)
  }

  /** The offset is one of an instance field of `c` or of a superclass. */
  ghost predicate InFields(classes: map<Id, ClassInfo>, c: Id, offset: nat)
    requires ClassesOk(classes) && c in classes
    decreases classes[c].depth
  {
    assert ClassOk(classes, c);
    || InRow(classes[c].firstInstance, classes[c].instances, offset)
    || (classes[c].super.To? && InFields(classes, classes[c].super.id, offset))
  }

  /** The walk looks at this offset of a class object whose class is `klass`. */
  ghost predicate Walked(classes: map<Id, ClassInfo>, klass: Id, offset: nat)
    requires ClassesOk(classes) && klass in classes
  {
    InFields(classes, klass, offset) || InRow(classes[klass].firstStatic, classes[klass].statics, offset)
  }

  /** Everything the static fields of class `o` refer to has a place. */
  ghost predicate OwnStaticsAssigned(heap: Heap, words: Words, o: Id)
    requires o in heap.classes
  {
    RowAssigned(heap, words, o, heap.classes[o].firstStatic, heap.classes[o].statics)
  }

  /** The walk looks at every static field of class `o`. */
  ghost predicate StaticsWalked(classes: map<Id, ClassInfo>, o: Id, klass: Id)
    requires ClassesOk(classes) && o in classes && klass in classes
  {
    forall j {:trigger StaticWalked(classes, o, klass, j)} | 0 <= j < classes[o].statics ::
      StaticWalked(classes, o, klass, j)
  }

  ghost predicate StaticWalked(classes: map<Id, ClassInfo>, o: Id, klass: Id, j: nat)
    requires ClassesOk(classes) && o in classes && klass in classes
  {
    Walked(classes, klass, classes[o].firstStatic + 4 * j)
  }

  lemma HeapClassesOk(heap: Heap)
    requires ValidHeap(heap)
    ensures ClassesOk(heap.classes)
  {
    forall c | c in heap.classes ensures ClassOk(heap.classes, c) {
      assert ValidClass(heap, heap.classes[c]);
    }
  }

  /** The walk of class object `o` looks at every static field of its own class. */
  ghost predicate OwnStaticsWalked(heap: Heap, o: Id)
    requires ValidHeap(heap) && o in heap.objects && o in heap.classes
  {
    assert ValidObject(heap, heap.objects[o]);
    HeapClassesOk(heap);
    StaticsWalked(heap.classes, o, heap.objects[o].klass)
  }

  lemma RowReaches(heap: Heap, words: Words, o: Id, first: nat, count: nat, offset: nat)
    requires RowAssigned(heap, words, o, first, count) && InRow(first, count, offset)
    ensures Reached(words, heap.field(o, offset))
  {
    var j :| AtIndex(first, count, offset, j);
    assert FieldReached(heap, words, o, first, j);
  }

  lemma {:induction false} FieldsReach(heap: Heap, words: Words, o: Id, c: Id, offset: nat)
    requires ValidHeap(heap) && ClassesOk(heap.classes) && c in heap.classes
    requires FieldsAssigned(heap, words, o, c) && InFields(heap.classes, c, offset)
    ensures Reached(words, heap.field(o, offset))
    decreases heap.classes[c].depth
  {
    var info := heap.classes[c];
    assert ValidClass(heap, info);
    if InRow(info.firstInstance, info.instances, offset) {
      RowReaches(heap, words, o, info.firstInstance, info.instances, offset);
    } else {
      FieldsReach(heap, words, o, info.super.id, offset);
    }
  }

  /** If the walk looks at all static fields of a class, its statics end assigned, whatever they hold. */
  lemma StaticsReached(heap: Heap, words: Words, o: Id)
    requires ValidHeap(heap) && o in heap.objects && o in heap.classes && heap.objects[o].kind.ClassObject?
    requires ReferentsAssigned(heap, words, o) && OwnStaticsWalked(heap, o)
    ensures OwnStaticsAssigned(heap, words, o)
  {
    assert ValidObject(heap, heap.objects[o]);
    HeapClassesOk(heap);
    var klass, own := heap.objects[o].klass, heap.classes[o];
    forall j | 0 <= j < own.statics ensures FieldReached(heap, words, o, own.firstStatic, j) {
      assert StaticWalked(heap.classes, o, klass, j);
      var offset := own.firstStatic + 4 * j;
      if InFields(heap.classes, klass, offset) {
        FieldsReach(heap, words, o, klass, offset);
      } else {
        RowReaches(heap, words, o, heap.classes[klass].firstStatic, heap.classes[klass].statics, offset);
      }
    }
  }

  // ----- small heaps -----

  lemma {:induction false} FewOriginals(heap: Heap, ids: seq<Id>)
    requires AllIn(heap, ids)
    ensures |Originals(heap, ids)| <= |ids|
  {
    if ids != [] {
      FewOriginals(heap, ids[..|ids| - 1]);
    }
  }

  lemma {:induction false} SmallBin(items: seq<Item>, k: nat, b: nat)
    requires k <= |items| && forall i {:trigger items[i]} | 0 <= i < |items| :: items[i].extent == 8
    ensures BinEnd(items, k, b) <= 8 * k
  {
    if k > 0 {
      SmallBin(items, k - 1, b);
    }
  }

  lemma {:induction false} SmallTotal(items: seq<Item>)
    requires forall i {:trigger items[i]} | 0 <= i < |items| :: items[i].extent == 8
    ensures Total(items) == 8 * |items|
  {
    if items != [] {
      SmallTotal(items[..|items| - 1]);
    }
  }

  /** A few objects of eight bytes fit. */
  lemma FewFit(heap: Heap)
    requires |heap.order| <= 3 && AllIn(heap, heap.order)
    requires heap.methodSize == 8 && forall o | o in heap.objects :: heap.objects[o].size == 8
    ensures Fits(heap, 8)
  {
    var ids := Originals(heap, heap.order);
    var items := ItemsOf(heap, ids);
    FewOriginals(heap, heap.order);
    assert forall i {:trigger items[i]} | 0 <= i < |items| :: items[i].extent == 8;
    SmallTotal(items);
    forall bin | 0 <= bin < BINS ensures BinEnd(items, |items|, bin) <= SHIFTED {
      SmallBin(items, |items|, bin);
    }
  }

  lemma TwoDistinct(a: Id, b: Id)
    requires a != b
    ensures Distinct([a, b])
  {
    assert forall i, j | 0 <= i < j < 2 :: Differ([a, b], i, j);
  }

  lemma ThreeDistinct(a: Id, b: Id, c: Id)
    requires a != b && a != c && b != c
    ensures Distinct([a, b, c])
  {
    TwoDistinct(a, b);
    DistinctMore([a, b], c);
    assert [a, b] + [c] == [a, b, c];
  }

  // ----- a static field passed over -----

  /** An identity of its own. */
  function Other(o: Id, klass: Id): Id {
    o + klass + 1
  }

  /** A class object, the object of its class, and an instance that only one field of the class object
      refers to. The first field of every object refers to its class. */
  function OneField(classes: map<Id, ClassInfo>, o: Id, klass: Id, offset: nat): Heap {
    var instance := Other(o, klass);
    Heap(map[o := Object(8, klass, ClassObject(false, [])), klass := Object(8, klass, ClassObject(false, [])),
             instance := Object(8, o, PlainObject)],
         classes,
         (p, at) => if p == o && at == offset then To(instance) else if at != 0 then Null
                    else if p == instance then To(o) else To(klass),
         [o, klass, instance], 8)
  }

  lemma OneFieldValid(classes: map<Id, ClassInfo>, o: Id, klass: Id, offset: nat)
    requires ClassesOk(classes) && o in classes && klass in classes && o != klass
    ensures var heap := OneField(classes, o, klass, offset);
            ValidHeap(heap) && Bounded(heap, 8)
  {
    var heap := OneField(classes, o, klass, offset);
    ThreeDistinct(o, klass, Other(o, klass));
    forall c | c in heap.classes ensures ValidClass(heap, heap.classes[c]) {
      assert ClassOk(classes, c);
    }
    forall p | p in heap.objects ensures ValidObject(heap, heap.objects[p]) {
    }
    FewFit(heap);
  }

  /** Only the two class objects are marked. */
  function OnlyClasses(o: Id, klass: Id): Words {
    map[o := Forward(0), klass := Forward(0), Other(o, klass) := 0]
  }

  lemma RowPassesOver(classes: map<Id, ClassInfo>, o: Id, klass: Id, offset: nat, p: Id, first: nat, count: nat)
    requires !InRow(first, count, offset) && p in [o, klass]
    ensures RowAssigned(OneField(classes, o, klass, offset), OnlyClasses(o, klass), p, first, count)
  {
    var heap, bound := OneField(classes, o, klass, offset), OnlyClasses(o, klass);
    ForwardRoundTrip(0);
    forall j | 0 <= j < count ensures FieldReached(heap, bound, p, first, j) {
      assert !AtIndex(first, count, offset, j);
    }
  }

  lemma {:induction false} FieldsPassOver(classes: map<Id, ClassInfo>, o: Id, klass: Id, offset: nat, p: Id, c: Id)
    requires ClassesOk(classes) && c in classes && p in [o, klass] && !InFields(classes, c, offset)
    requires ValidHeap(OneField(classes, o, klass, offset))
    ensures FieldsAssigned(OneField(classes, o, klass, offset), OnlyClasses(o, klass), p, c)
    decreases classes[c].depth
  {
    assert ClassOk(classes, c);
    if classes[c].super.To? {
      FieldsPassOver(classes, o, klass, offset, p, classes[c].super.id);
    }
    RowPassesOver(classes, o, klass, offset, p, classes[c].firstInstance, classes[c].instances);
  }

  lemma OnlyClassesClosed(classes: map<Id, ClassInfo>, o: Id, klass: Id, offset: nat)
    requires ClassesOk(classes) && klass in classes && !Walked(classes, klass, offset)
    requires ValidHeap(OneField(classes, o, klass, offset))
    ensures Closed(OneField(classes, o, klass, offset), OnlyClasses(o, klass)) && Assigned(OnlyClasses(o, klass), o)
  {
    ForwardRoundTrip(0);
    var heap, bound := OneField(classes, o, klass, offset), OnlyClasses(o, klass);
    forall p | p in heap.objects && Assigned(bound, p) ensures ClosedAt(heap, bound, p) {
      assert p in [o, klass];
      FieldsPassOver(classes, o, klass, offset, p, klass);
      RowPassesOver(classes, o, klass, offset, p, classes[klass].firstStatic, classes[klass].statics);
    }
  }

  /** A writer before its first pass. */
  method StartAt(heap: Heap, initial: Words) returns (w: ImageWriter)
    requires ValidHeap(heap) && Bounded(heap, 8) && initial.Keys == heap.objects.Keys && Deflated(initial)
    ensures fresh(w) && w.Valid() && w.heap == heap && w.lockWords == initial
  {
    w := new ImageWriter(heap, initial);
    w.imageEnd, w.objectsBegin := 8, 8;
    StartPlaces(heap, 8);
    StartWords(heap, initial);
  }

  lemma OtherClass(classes: map<Id, ClassInfo>, o: Id, j: nat)
    requires ClassesOk(classes) && o in classes && j < classes[o].statics
    ensures StaticWalked(classes, o, o, j)
  {
    assert AtIndex(classes[o].firstStatic, classes[o].statics, classes[o].firstStatic + 4 * j, j);
  }

  /** Conversely: for classes where the walk does not look at some static field of class `o`, there is a
      heap in which the walk of `o` leaves what that field refers to without a place. */
  method PassOver(classes: map<Id, ClassInfo>, o: Id, klass: Id, j: nat) returns (w: ImageWriter)
    requires ClassesOk(classes) && o in classes && klass in classes
    requires j < classes[o].statics && !StaticWalked(classes, o, klass, j)
    ensures w.Valid() && w.heap.classes == classes && o in w.heap.objects && klass in w.heap.objects
    ensures w.heap.objects[o].klass == klass && w.heap.objects[o].kind.ClassObject?
    ensures w.heap.objects[klass].klass == klass && w.heap.objects[klass].kind.ClassObject?
    ensures classes[o].firstStatic + 4 * j != 0 ==> w.heap.field(o, 0) == To(klass)
    ensures Assigned(w.lockWords, o) && ReferentsAssigned(w.heap, w.lockWords, o)
    ensures !OwnStaticsAssigned(w.heap, w.lockWords, o)
  {
    var offset := classes[o].firstStatic + 4 * j;
    var heap, instance := OneField(classes, o, klass, offset), Other(o, klass);
    OtherClass(classes, o, j);
    OneFieldValid(classes, o, klass, offset);
    OnlyClassesClosed(classes, o, klass, offset);
    w := StartAt(heap, map[o := 0, klass := 0, instance := 0]);
    w.WalkFieldsInOrder(o, OnlyClasses(o, klass));
    assert !FieldReached(heap, w.lockWords, o, classes[o].firstStatic, j) by {
      assert !Assigned(w.lockWords, instance);
    }
  }

  /** A class with one static field, whose class has no static fields: the static is passed over. Both are
      derived from a class with one field, the reference to the class. */
  method PassedOverStatic() returns (w: ImageWriter)
    ensures w.Valid() && 0 in w.heap.classes && w.heap.classes[0].statics == 1 && 0 in w.heap.objects
    ensures w.heap.objects[0].klass == 1 && 1 in w.heap.objects && w.heap.field(0, 0) == To(1)
    ensures Assigned(w.lockWords, 0) && !OwnStaticsAssigned(w.heap, w.lockWords, 0)
  {
    var root := ClassInfo(0, Null, 1, 0, 0, 0);
    var derived := ClassInfo(1, To(2), 0, 0, 0, 0);
    var classes: map<Id, ClassInfo> := map[0 := derived.(statics := 1, firstStatic := 64), 1 := derived, 2 := root];
    assert ClassesOk(classes);
    assert !StaticWalked(classes, 0, 1, 0) by {
      assert ClassOk(classes, 1) && ClassOk(classes, 2);
      assert !InFields(classes, 2, 64);
    }
    w := PassOver(classes, 0, 1, 0);
  }

  // ----- a hash code lost -----

  /** Two strings with the same characters, the first of them interned. */
  function TwoStrings(): Heap {
    Heap(map[0 := Object(8, 2, StringObject(0)), 1 := Object(8, 2, StringObject(0))],
         map[2 := ClassInfo(0, Null, 0, 0, 0, 0)], (p, at) => Null, [0, 1], 8)
  }

  /** Lock words with hash codes 5 and 7. */
  function TwoHashes(): Words {
    map[0 := 2 * STATE + 5, 1 := 2 * STATE + 7]
  }

  lemma TwoStringsValid()
    ensures ValidHeap(TwoStrings()) && Bounded(TwoStrings(), 8)
    ensures Deflated(TwoHashes()) && !SharersAgree(TwoStrings(), TwoHashes())
  {
    var heap, words := TwoStrings(), TwoHashes();
    TwoDistinct(0, 1);
    forall p | p in heap.objects ensures ValidObject(heap, heap.objects[p]) {
    }
    forall c | c in heap.classes ensures ValidClass(heap, heap.classes[c]) {
    }
    FewFit(heap);
    assert State(words[0]) == HashCode && State(words[1]) == HashCode;
    assert HashOf(words[0]) == 5 && HashOf(words[1]) == 7;
    assert !Agree(heap, words, 0, 1);
  }

  /** The image of these strings has one place and one saved hash code for both, so one of them does not
      find its own. */
  method LoseHash() returns (w: ImageWriter)
    ensures w.heap == TwoStrings() && w.initial == TwoHashes()
    ensures LaidOut(w.heap, w.lockWords, w.objectsBegin, w.imageEnd)
    ensures !FindsOwn(w.initial, w.lockWords, w.savedHashes, 0) || !FindsOwn(w.initial, w.lockWords, w.savedHashes, 1)
  {
    TwoStringsValid();
    w := new ImageWriter(TwoStrings(), TwoHashes());
    w.CalculateNewObjectOffsets(8);
    assert forall o | o in w.initial :: o == 0 || o == 1;
  }

  // ----- a sum of sizes that overflows -----

  /** Four full bins: each index has its 29 bits, but the sum of the sizes is not an `int` any more. */
  method FullBins() returns (sum: nat)
    ensures sum != SumTo([SHIFTED, SHIFTED, SHIFTED, SHIFTED], 4) == TWO31
  {
    var sizes := [SHIFTED, SHIFTED, SHIFTED, SHIFTED];
    assert SumTo(sizes, 1) == SHIFTED && SumTo(sizes, 2) == 2 * SHIFTED && SumTo(sizes, 3) == 3 * SHIFTED;
    sum := GetBinSizeSum(sizes, 4);
    SumExact(TWO31);
  }
}
