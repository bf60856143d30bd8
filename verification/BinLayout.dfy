/**
 Bins filled side by side. Objects arrive in any order, each for one of eight bins; its index is the
 size its bin has reached. Only when all have arrived are the bins laid out one after the other.
 */
module BinLayout {
  import opened Bytes
  import opened ImageSlots

  datatype Item = Item(bin: nat, extent: nat)

  ghost predicate ValidItems(items: seq<Item>) {
    forall k {:trigger items[k]} | 0 <= k < |items| ::
      items[k].bin < BINS && items[k].extent > 0 && items[k].extent % 8 == 0
  }

  /** The size bin `b` has reached after the first `k` items. */
  ghost function BinEnd(items: seq<Item>, k: nat, b: nat): nat
    requires k <= |items|
  {
    if k == 0 then 0
    else BinEnd(items, k - 1, b) + if items[k - 1].bin == b then items[k - 1].extent else 0
  }

  /** The final sizes of the bins before bin `b`. */
  ghost function Base(items: seq<Item>, b: nat): nat {
    if b == 0 then 0 else Base(items, b - 1) + BinEnd(items, |items|, b - 1)
  }

  /** The place of item `k`, relative to the first bin. */
  ghost function Place(items: seq<Item>, k: nat): nat
    requires k < |items|
  {
    Base(items, items[k].bin) + BinEnd(items, k, items[k].bin)
  }

  /** The sum of all extents. */
  ghost function Total(items: seq<Item>): nat {
    if items == [] then 0 else Total(items[..|items| - 1]) + items[|items| - 1].extent
  }

  // ----- within a bin -----

  lemma {:induction false} BinEndGrows(items: seq<Item>, i: nat, j: nat, b: nat)
    requires i <= j <= |items|
    ensures BinEnd(items, i, b) <= BinEnd(items, j, b)
  {
    if i < j {
      BinEndGrows(items, i, j - 1, b);
    }
  }

  lemma SumAligned(a: nat, b: nat)
    requires a % 8 == 0 && b % 8 == 0
    ensures (a + b) % 8 == 0
  {
  }

  /** Items of one bin follow each other. */
  lemma {:induction false} BinEndAfter(items: seq<Item>, i: nat, j: nat)
    requires i < j <= |items|
    ensures BinEnd(items, i, items[i].bin) + items[i].extent <= BinEnd(items, j, items[i].bin)
  {
    BinEndGrows(items, i + 1, j, items[i].bin);
  }

  lemma {:induction false} BinEndAligned(items: seq<Item>, k: nat, b: nat)
    requires ValidItems(items) && k <= |items|
    ensures BinEnd(items, k, b) % 8 == 0
  {
    if k > 0 {
      BinEndAligned(items, k - 1, b);
    }
  }

  /** Earlier indices do not depend on what arrives later. */
  lemma {:induction false} BinEndPrefix(items: seq<Item>, more: seq<Item>, k: nat, b: nat)
    requires k <= |items|
    ensures BinEnd(items + more, k, b) == BinEnd(items, k, b)
  {
    if k > 0 {
      BinEndPrefix(items, more, k - 1, b);
    }
  }

  /** Every byte below the size of a bin belongs to one of its items. */
  lemma {:induction false} BinCovered(items: seq<Item>, n: nat, b: nat, p: nat) returns (k: nat)
    requires n <= |items| && p < BinEnd(items, n, b)
    ensures k < n && items[k].bin == b && BinEnd(items, k, b) <= p < BinEnd(items, k, b) + items[k].extent
  {
    if p < BinEnd(items, n - 1, b) {
      k := BinCovered(items, n - 1, b, p);
    } else {
      k := n - 1;
    }
  }

  // ----- across bins -----

  lemma {:induction false} BaseGrows(items: seq<Item>, a: nat, b: nat)
    requires a <= b
    ensures Base(items, a) <= Base(items, b)
  {
    if a < b {
      BaseGrows(items, a, b - 1);
    }
  }

  /** An item lies inside its bin. */
  lemma {:induction false} PlaceInBin(items: seq<Item>, k: nat)
    requires k < |items|
    ensures Base(items, items[k].bin) <= Place(items, k)
    ensures Place(items, k) + items[k].extent <= Base(items, items[k].bin + 1)
  {
    BinEndAfter(items, k, |items|);
  }

  /** Distinct items never overlap. */
  lemma PlacesDisjoint(items: seq<Item>, i: nat, j: nat)
    requires i < j < |items|
    ensures Place(items, i) + items[i].extent <= Place(items, j) || Place(items, j) + items[j].extent <= Place(items, i)
  {
    PlaceInBin(items, i);
    PlaceInBin(items, j);
    if items[i].bin == items[j].bin {
      BinEndAfter(items, i, j);
    } else if items[i].bin < items[j].bin {
      BaseGrows(items, items[i].bin + 1, items[j].bin);
    } else {
      BaseGrows(items, items[j].bin + 1, items[i].bin);
    }
  }

  /** Items of a lower bin lie before items of a higher one. */
  lemma BinsInOrder(items: seq<Item>, i: nat, j: nat)
    requires i < |items| && j < |items| && items[i].bin < items[j].bin
    ensures Place(items, i) + items[i].extent <= Place(items, j)
  {
    PlaceInBin(items, i);
    PlaceInBin(items, j);
    BaseGrows(items, items[i].bin + 1, items[j].bin);
  }

  lemma {:induction false} BaseAligned(items: seq<Item>, b: nat)
    requires ValidItems(items)
    ensures Base(items, b) % 8 == 0
  {
    if b > 0 {
      BaseAligned(items, b - 1);
      BinEndAligned(items, |items|, b - 1);
    }
  }

  /** Every item is aligned and lies below the total. */
  lemma {:induction false} PlaceInside(items: seq<Item>, k: nat)
    requires ValidItems(items) && k < |items|
    ensures Place(items, k) % 8 == 0 && Place(items, k) + items[k].extent <= Total(items)
  {
    BaseAligned(items, items[k].bin);
    BinEndAligned(items, k, items[k].bin);
    PlaceInBin(items, k);
    BaseGrows(items, items[k].bin + 1, BINS);
    BaseIsTotal(items);
  }

  /** The packing is tight: every byte below the total belongs to an item. */
  lemma Covered(items: seq<Item>, p: nat) returns (k: nat)
    requires ValidItems(items) && p < Total(items)
    ensures k < |items| && Place(items, k) <= p < Place(items, k) + items[k].extent
  {
    BaseIsTotal(items);
    k := CoveredBelow(items, p, BINS);
  }

  lemma {:induction false} CoveredBelow(items: seq<Item>, p: nat, b: nat) returns (k: nat)
    requires p < Base(items, b)
    ensures k < |items| && Place(items, k) <= p < Place(items, k) + items[k].extent
  {
    if p < Base(items, b - 1) {
      k := CoveredBelow(items, p, b - 1);
    } else {
      k := BinCovered(items, |items|, b - 1, p - Base(items, b - 1));
    }
  }

  // ----- the total -----

  /** Adding one item moves the base of the later bins by its extent. */
  lemma {:induction false} BaseAppend(items: seq<Item>, x: Item, b: nat)
    ensures Base(items + [x], b) == Base(items, b) + if x.bin < b then x.extent else 0
  {
    if b > 0 {
      BaseAppend(items, x, b - 1);
      BinEndPrefix(items, [x], |items|, b - 1);
    }
  }

  lemma {:induction false} BaseEmpty(b: nat)
    ensures Base([], b) == 0
  {
    if b > 0 {
      BaseEmpty(b - 1);
    }
  }

  /** All bins together hold all extents. */
  lemma {:induction false} BaseIsTotal(items: seq<Item>)
    requires ValidItems(items)
    ensures Base(items, BINS) == Total(items)
  {
    if items == [] {
      BaseEmpty(BINS);
    } else {
      var rest, x := items[..|items| - 1], items[|items| - 1];
      assert items == rest + [x];
      BaseIsTotal(rest);
      BaseAppend(rest, x, BINS);
    }
  }

  // ----- sub-collections -----

  /** Leaving out one item lowers one bin by its extent. */
  lemma {:induction false} BinEndWithout(items: seq<Item>, i: nat, b: nat)
    requires i < |items|
    ensures var rest := items[..i] + items[i + 1..];
            BinEnd(items, |items|, b) == BinEnd(rest, |rest|, b) + if items[i].bin == b then items[i].extent else 0
  {
    var last := |items| - 1;
    var rest := items[..i] + items[i + 1..];
    if i == last {
      assert rest == items[..last];
      BinEndPrefix(items[..last], [items[last]], last, b);
      assert items[..last] + [items[last]] == items;
    } else {
      var front := items[..last];
      assert front + [items[last]] == items;
      BinEndPrefix(front, [items[last]], last, b);
      BinEndWithout(front, i, b);
      var shorter := front[..i] + front[i + 1..];
      assert rest == shorter + [items[last]];
      BinEndPrefix(shorter, [items[last]], |shorter|, b);
    }
  }

  // ----- the sum computed by the writer -----

  function SumTo(sizes: seq<nat>, n: nat): nat
    requires n <= |sizes|
  {
    if n == 0 then 0 else SumTo(sizes, n - 1) + sizes[n - 1]
  }

  const TWO64: int := 0x1_0000_0000_0000_0000

  /** A partial sum may be reduced before the next addition. */
  lemma AsIntOfSum(a: int, b: int)
    ensures AsInt(AsInt(a) + b) == AsInt(a + b)
  {
    var k := if a % TWO32 < TWO31 then a / TWO32 else a / TWO32 + 1;
    ModuloShifted(a + b, k);
  }

  lemma ModuloShifted(x: int, k: int)
    ensures (x - 0x1_0000_0000 * k) % 0x1_0000_0000 == x % 0x1_0000_0000
  {
  }

  /** `GetBinSizeSum`: `accumulate` with an `int` start value, so every partial sum is an `int`. */
  method GetBinSizeSum(sizes: seq<nat>, upTo: nat) returns (sum: nat)
    requires upTo <= |sizes|
    ensures sum == AsInt(SumTo(sizes, upTo)) % TWO64
  {
    var accumulated: int := 0;
    for i := 0 to upTo
      invariant accumulated == AsInt(SumTo(sizes, i))
    {
      AsIntOfSum(SumTo(sizes, i), sizes[i]);
      accumulated := AsInt(accumulated + sizes[i]);
    }
    sum := accumulated % TWO64;
  }

  /** It is the sum if and only if the sum fits in an `int`, or is so close to 2^64 that sign
      extension restores it. */
  lemma SumExact(total: nat)
    requires total < TWO64
    ensures AsInt(total) % TWO64 == total <==> total < TWO31 || total >= TWO64 - TWO31
  {
    var w := total % TWO32;
    if w >= TWO31 {
      assert AsInt(total) % TWO64 == w - TWO32 + TWO64;
      assert total == w - TWO32 + TWO64 ==> total >= TWO64 - TWO31;
      assert total >= TWO64 - TWO31 ==> total == w - TWO32 + TWO64;
    }
  }

  /** The writer's sum over its bin sizes is the base of the bin. */
  lemma {:induction false} SumIsBase(items: seq<Item>, sizes: seq<nat>, b: nat)
    requires b <= |sizes| && forall c {:trigger sizes[c]} | 0 <= c < |sizes| :: sizes[c] == BinEnd(items, |items|, c)
    ensures SumTo(sizes, b) == Base(items, b)
  {
    if b > 0 {
      SumIsBase(items, sizes, b - 1);
    }
  }
}
