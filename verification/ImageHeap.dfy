/** The heap the image is made from, and which bin each of its objects goes to. */
module ImageHeap {
  import opened Bytes
  import opened Sequences
  import opened ImageSlots
  import opened BinLayout

  type Id = nat

  datatype Reference = Null | To(id: Id)

  datatype Kind =
    | StringObject(interned: Id)
    | ClassObject(initialized: bool, staticsFinal: seq<bool>)
    | MethodObject(native: bool, declaringInitialized: bool)
    | ArrayObject(elements: seq<Reference>)
    | PlainObject

  datatype Object = Object(size: nat, klass: Id, kind: Kind)

  /** What the walk needs of a class: its superclass and where reference fields lie. */
  datatype ClassInfo =
    ClassInfo(depth: nat, super: Reference, instances: nat, firstInstance: nat, statics: nat, firstStatic: nat)

  /** `order` is the order in which the heap visits its objects; `field` reads the reference at a
      byte offset of an object; methods have the size of the target, not of the host. */
  datatype Heap =
    Heap(objects: map<Id, Object>, classes: map<Id, ClassInfo>, field: (Id, nat) -> Reference, order: seq<Id>,
         methodSize: nat)

  ghost predicate InHeap(heap: Heap, r: Reference) {
    r.To? ==> r.id in heap.objects
  }

  ghost predicate ValidObject(heap: Heap, object_: Object) {
    && object_.size > 0 && object_.klass in heap.classes
    && (object_.kind.StringObject? ==>
          && object_.kind.interned in heap.objects
          && heap.objects[object_.kind.interned].kind == object_.kind)
    && (object_.kind.ArrayObject? ==> forall r | r in object_.kind.elements :: InHeap(heap, r))
  }

  ghost predicate ValidClass(heap: Heap, info: ClassInfo) {
    info.super.To? ==> info.super.id in heap.classes && heap.classes[info.super.id].depth < info.depth
  }

  /** References stay inside the heap, superclass chains end, interning is idempotent, and each
      object is visited once. Reference cycles are allowed. */
  ghost predicate ValidHeap(heap: Heap) {
    && heap.methodSize > 0
    && Distinct(heap.order) && (forall o :: o in heap.order <==> o in heap.objects)
    && (forall o {:trigger ValidObject(heap, heap.objects[o])} | o in heap.objects :: ValidObject(heap, heap.objects[o]))
    && (forall c {:trigger ValidClass(heap, heap.classes[c])} | c in heap.classes :: ValidClass(heap, heap.classes[c]))
    && (forall o, offset :: InHeap(heap, heap.field(o, offset)))
  }

  // ----- bins -----

  datatype Bin =
    | StringBin
    | ManagedMethodBin
    | RegularBin
    | FinalClassBin
    | InitializedClassBin
    | VerifiedClassBin
    | NativeMethodBin
    | UninitializedMethodBin

  function Number(bin: Bin): (n: nat)
    ensures n < BINS
  {
    match bin
    case StringBin => 0
    case ManagedMethodBin => 1
    case RegularBin => 2
    case FinalClassBin => 3
    case InitializedClassBin => 4
    case VerifiedClassBin => 5
    case NativeMethodBin => 6
    case UninitializedMethodBin => 7
  }

  /** The bin of an object: classes by whether they are initialized and all their statics final,
      methods by whether they are native and their class initialized. */
  ghost function BinOf(kind: Kind): Bin {
    match kind
    case StringObject(_) => StringBin
    case ClassObject(initialized, staticsFinal) =>
      if !initialized then VerifiedClassBin
      else if false in staticsFinal then InitializedClassBin
      else FinalClassBin
    case MethodObject(native, declaringInitialized) =>
      if native then NativeMethodBin
      else if declaringInitialized then ManagedMethodBin
      else UninitializedMethodBin
    case _ => RegularBin
  }

  /** The choice as the writer makes it, with a loop over the static fields. */
  method SelectBin(kind: Kind) returns (bin: Bin)
    ensures bin == BinOf(kind)
  {
    bin := RegularBin;
    if kind.ClassObject? {
      bin := VerifiedClassBin;
      if kind.initialized {
        bin := InitializedClassBin;
        if |kind.staticsFinal| == 0 {
          bin := FinalClassBin;
        } else {
          var allFinal, i := true, 0;
          while i < |kind.staticsFinal| && allFinal
            invariant 0 <= i <= |kind.staticsFinal|
            invariant allFinal <==> false !in kind.staticsFinal[..i]
            invariant !allFinal ==> false in kind.staticsFinal
          {
            allFinal := kind.staticsFinal[i];
            assert kind.staticsFinal[i] in kind.staticsFinal;
            i := i + 1;
          }
          assert allFinal ==> kind.staticsFinal[..i] == kind.staticsFinal;
          if allFinal {
            bin := FinalClassBin;
          }
        }
      }
    } else if kind.MethodObject? {
      if kind.native {
        bin := NativeMethodBin;
      } else if !kind.declaringInitialized {
        bin := UninitializedMethodBin;
      } else {
        bin := ManagedMethodBin;
      }
    } else if kind.StringObject? {
      bin := StringBin;
    }
  }

  function ImageSize(heap: Heap, o: Id): nat
    requires o in heap.objects
  {
    if heap.objects[o].kind.MethodObject? then heap.methodSize else heap.objects[o].size
  }

  /** The bytes an object takes in the image. */
  function Extent(heap: Heap, o: Id): nat
    requires o in heap.objects
  {
    RoundUp(ImageSize(heap, o), 8)
  }

  /** The object that stands for `o` in the image: a string is represented by its interned string. */
  function Canonical(heap: Heap, o: Id): Id
    requires o in heap.objects
  {
    if heap.objects[o].kind.StringObject? then heap.objects[o].kind.interned else o
  }

  lemma CanonicalIdempotent(heap: Heap, o: Id)
    requires ValidHeap(heap) && o in heap.objects
    ensures Canonical(heap, o) in heap.objects
    ensures Canonical(heap, Canonical(heap, o)) == Canonical(heap, o)
  {
    assert ValidObject(heap, heap.objects[o]);
  }

  // ----- what must fit -----

  ghost function ItemOf(heap: Heap, o: Id): Item
    requires o in heap.objects
  {
    Item(Number(BinOf(heap.objects[o].kind)), Extent(heap, o))
  }

  ghost predicate AllIn(heap: Heap, ids: seq<Id>) {
    forall k {:trigger ids[k]} | 0 <= k < |ids| :: ids[k] in heap.objects
  }

  ghost function ItemsOf(heap: Heap, ids: seq<Id>): (items: seq<Item>)
    requires AllIn(heap, ids)
    ensures |items| == |ids|
    ensures forall k {:trigger items[k]} | 0 <= k < |ids| :: items[k] == ItemOf(heap, ids[k])
  {
    seq(|ids|, k requires 0 <= k < |ids| => ItemOf(heap, ids[k]))
  }

  lemma ItemsValid(heap: Heap, ids: seq<Id>)
    requires ValidHeap(heap) && AllIn(heap, ids)
    ensures ValidItems(ItemsOf(heap, ids))
  {
    forall k | 0 <= k < |ids| ensures ImageSize(heap, ids[k]) > 0 {
      assert ValidObject(heap, heap.objects[ids[k]]);
    }
  }

  /** The objects that stand for themselves. */
  ghost function Originals(heap: Heap, ids: seq<Id>): (r: seq<Id>)
    requires AllIn(heap, ids)
    ensures AllIn(heap, r)
    ensures forall o :: o in r <==> o in ids && o in heap.objects && Canonical(heap, o) == o
  {
    if ids == [] then []
    else
      var rest, x := ids[..|ids| - 1], ids[|ids| - 1];
      assert AllIn(heap, rest);
      assert forall o :: o in ids <==> o in rest || o == x;
      Originals(heap, rest) + if Canonical(heap, x) == x then [x] else []
  }

  /** Indices fit in 29 bits, the sum of the bin sizes in an `int`, offsets in 32 bits. */
  ghost predicate Fits(heap: Heap, begin: nat)
    requires AllIn(heap, heap.order)
  {
    var items := ItemsOf(heap, Originals(heap, heap.order));
    && begin > 0 && begin % 8 == 0
    && (forall b | 0 <= b < BINS :: BinEnd(items, |items|, b) <= SHIFTED)
    && Total(items) < TWO31 && begin + Total(items) <= TWO32
  }

  ghost predicate Among(ids: seq<Id>, all: seq<Id>) {
    forall o | o in ids :: o in all
  }

  /** Without the last of `ids`, the others are still among the rest of `all`. */
  lemma OthersRemain(ids: seq<Id>, all: seq<Id>, i: nat)
    requires Distinct(ids) && ids != [] && i < |all| && all[i] == ids[|ids| - 1] && Among(ids, all)
    ensures Distinct(ids[..|ids| - 1]) && Among(ids[..|ids| - 1], all[..i] + all[i + 1..])
  {
    var last := |ids| - 1;
    var front, rest := ids[..last], all[..i] + all[i + 1..];
    DistinctWithout(ids, last);
    assert ids[..last] + ids[last + 1..] == front;
    forall o | o in front ensures o in rest {
      var j :| 0 <= j < last && ids[j] == o;
      assert ids[j] in ids;
      var k :| 0 <= k < |all| && all[k] == o;
      assert rest[if k < i then k else k - 1] == o;
    }
  }

  lemma {:induction false} BinWithout(heap: Heap, ids: seq<Id>, i: nat, rest: seq<Id>, b: nat)
    requires AllIn(heap, ids) && i < |ids| && rest == ids[..i] + ids[i + 1..]
    ensures AllIn(heap, rest)
    ensures BinEnd(ItemsOf(heap, ids), |ids|, b)
         == BinEnd(ItemsOf(heap, rest), |rest|, b)
            + if ItemOf(heap, ids[i]).bin == b then ItemOf(heap, ids[i]).extent else 0
  {
    assert AllIn(heap, rest) by {
      forall k | 0 <= k < |rest| ensures rest[k] in heap.objects {
        assert rest[k] == ids[if k < i then k else k + 1];
      }
    }
    var items := ItemsOf(heap, ids);
    assert items[..i] + items[i + 1..] == ItemsOf(heap, rest);
    BinEndWithout(items, i, b);
  }

  lemma {:induction false} SubBins(heap: Heap, ids: seq<Id>, all: seq<Id>, b: nat)
    requires AllIn(heap, ids) && AllIn(heap, all) && Distinct(ids) && Among(ids, all)
    ensures BinEnd(ItemsOf(heap, ids), |ids|, b) <= BinEnd(ItemsOf(heap, all), |all|, b)
    decreases |ids|
  {
    if ids != [] {
      var last := |ids| - 1;
      assert ids[last] in all;
      var i :| 0 <= i < |all| && all[i] == ids[last];
      OthersRemain(ids, all, i);
      BinWithout(heap, ids, last, ids[..last], b);
      BinWithout(heap, all, i, all[..i] + all[i + 1..], b);
      SubBins(heap, ids[..last], all[..i] + all[i + 1..], b);
    }
  }

  lemma {:induction false} SubBase(heap: Heap, ids: seq<Id>, all: seq<Id>, b: nat)
    requires AllIn(heap, ids) && AllIn(heap, all) && Distinct(ids) && Among(ids, all)
    ensures Base(ItemsOf(heap, ids), b) <= Base(ItemsOf(heap, all), b)
  {
    if b > 0 {
      SubBase(heap, ids, all, b - 1);
      SubBins(heap, ids, all, b - 1);
    }
  }
}
